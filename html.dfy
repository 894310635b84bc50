/**
 * Abstract stand-ins for the parts of the Yii HTML library that the dialog
 * widget relies on: attribute values, an element tree in place of the
 * serialised markup, and the class-list merge of `Html::addCssClass`.
 *
 * The library's own code is not part of this model. What is stated here
 * about `addCssClass` is an assumption: a missing class becomes the token,
 * a list gains the token at its end when it is absent, and a space-separated
 * string is split into tokens, extended the same way and joined again with
 * single spaces. No existing token is ever dropped.
 */
module Html {

  /** An attribute value as the widget hands it to the library. */
  datatype Value =
    | Text(s: string)            // a PHP string
    | Flag(b: bool)              // a PHP bool, e.g. `data-close-dialog => true`
    | List(items: seq<string>)   // a PHP list of strings, e.g. a class array

  type Attributes = map<string, Value>

  /** Element content: a fragment embedded as given, or a nested element. */
  datatype Node = Raw(text: string) | Elem(tag: Tag)

  /**
   * One element: its name, its attributes, its content in document order,
   * and whether the library HTML-encodes string content (`encode(...)`).
   */
  datatype Tag = Tag(name: string, attrs: Attributes, content: seq<Node>, encode: bool)

  const CLASS := "class"

  // ---------------------------------------------------------------------
  // Class tokens
  // ---------------------------------------------------------------------

  /** The characters PCRE's `\s` matches: space, \t, \n, \v, \f, \r. */
  predicate IsSpace(c: char) {
    c == ' ' || c == '\t' || c == '\n' || c == '\r' || c as int == 11 || c as int == 12
  }

  /** A class token: non-empty and free of white space. */
  predicate IsToken(t: string) {
    t != [] && forall i :: 0 <= i < |t| ==> !IsSpace(t[i])
  }

  /** The longest prefix of `s` that holds no white space. */
  function Word(s: string): (w: string)
    ensures |w| <= |s| && w == s[..|w|]
    ensures forall i :: 0 <= i < |w| ==> !IsSpace(w[i])
    ensures |w| < |s| ==> IsSpace(s[|w|])
    ensures s != [] && !IsSpace(s[0]) ==> w != []
  {
    if s == [] || IsSpace(s[0]) then [] else [s[0]] + Word(s[1..])
  }

  /** `preg_split('/\s+/', s, -1, PREG_SPLIT_NO_EMPTY)`: the tokens of `s`. */
  function Split(s: string): (ts: seq<string>)
    ensures forall i :: 0 <= i < |ts| ==> IsToken(ts[i])
    decreases |s|
  {
    if s == [] then []
    else if IsSpace(s[0]) then Split(s[1..])
    else
      var w := Word(s);
      [w] + Split(s[|w|..])
  }

  /** `implode(' ', ts)`. */
  function Join(ts: seq<string>): string {
    if ts == [] then ""
    else if |ts| == 1 then ts[0]
    else ts[0] + " " + Join(ts[1..])
  }

  lemma {:induction false} WordOfToken(t: string, rest: string)
    requires IsToken(t)
    requires rest == [] || IsSpace(rest[0])
    ensures Word(t + rest) == t
    decreases |t|
  {
    var s := t + rest;
    assert s[0] == t[0];
    if |t| > 1 {
      assert IsToken(t[1..]) by {
        forall i | 0 <= i < |t[1..]| ensures !IsSpace(t[1..][i]) {
          assert t[1..][i] == t[i + 1];
        }
      }
      WordOfToken(t[1..], rest);
      assert s[1..] == t[1..] + rest;
    } else {
      assert s[1..] == rest;
    }
  }

  /** Splitting the joined tokens gives the tokens back. */
  lemma {:induction false} SplitJoin(ts: seq<string>)
    requires forall i :: 0 <= i < |ts| ==> IsToken(ts[i])
    ensures Split(Join(ts)) == ts
  {
    if ts == [] {
    } else if |ts| == 1 {
      WordOfToken(ts[0], "");
      assert ts[0][|ts[0]|..] == [];
      assert ts[0] + "" == ts[0];
    } else {
      var rest := Join(ts[1..]);
      var s := ts[0] + " " + rest;
      WordOfToken(ts[0], " " + rest);
      assert s == ts[0] + (" " + rest);
      assert s[|ts[0]|..] == " " + rest;
      assert (" " + rest)[1..] == rest;
      SplitJoin(ts[1..]);
      assert ts == [ts[0]] + ts[1..];
    }
  }

  /** The class tokens an attribute map carries, in order. */
  function Classes(attrs: Attributes): seq<string> {
    if CLASS !in attrs then []
    else match attrs[CLASS]
      case Text(s) => Split(s)
      case List(ts) => ts
      case Flag(_) => []
  }

  /** Two maps with the same class entry have the same class tokens. */
  lemma ClassesAgree(a: Attributes, b: Attributes)
    requires CLASS in a <==> CLASS in b
    requires CLASS in a ==> a[CLASS] == b[CLASS]
    ensures Classes(a) == Classes(b)
  {
  }

  /**
   * The library accepts only a string or a list as the class value; a bool
   * there is a type error, which callers must not provoke.
   */
  predicate ClassWellFormed(attrs: Attributes) {
    CLASS in attrs ==> !attrs[CLASS].Flag?
  }

  /** Add `token` to a class list, keeping every token already there. */
  function MergeClasses(ts: seq<string>, token: string): (r: seq<string>)
    ensures token in r
    ensures |ts| <= |r| <= |ts| + 1 && r[..|ts|] == ts
    ensures token in ts <==> r == ts
  {
    if token in ts then ts else ts + [token]
  }

  /** `Html::addCssClass($attrs, token)`, under the assumption stated above. */
  function AddCssClass(attrs: Attributes, token: string): (r: Attributes)
    requires ClassWellFormed(attrs)
    ensures ClassWellFormed(r)
    ensures r.Keys == attrs.Keys + {CLASS}
    ensures forall k :: k in attrs && k != CLASS ==> r[k] == attrs[k]
  {
    if CLASS !in attrs then attrs[CLASS := Text(token)]
    else match attrs[CLASS]
      case List(ts) => attrs[CLASS := List(MergeClasses(ts, token))]
      case Text(s) => attrs[CLASS := Text(Join(MergeClasses(Split(s), token)))]
  }

  /**
   * Class lists merge rather than overwrite: after `AddCssClass` the class
   * tokens are the old ones, in order, with `token` added when it was absent.
   */
  lemma AddCssClassMerges(attrs: Attributes, token: string)
    requires ClassWellFormed(attrs) && IsToken(token)
    ensures Classes(AddCssClass(attrs, token)) == MergeClasses(Classes(attrs), token)
    ensures token in Classes(AddCssClass(attrs, token))
    ensures forall t :: t in Classes(attrs) ==> t in Classes(AddCssClass(attrs, token))
  {
    if CLASS !in attrs {
      assert Text(token).s == token + "";
      SplitJoin([token]);
    } else if attrs[CLASS].Text? {
      SplitJoin(MergeClasses(Split(attrs[CLASS].s), token));
    }
  }
  // ---------------------------------------------------------------------
  // Reading an element tree
  // ---------------------------------------------------------------------

  // Each walk over a tree is a function on one element and a function on a
  // suffix of that element's content; the ghost `parent` is the element, so
  // that the recursion visibly descends into it.

  /** Every node of `ns` is a child of `parent`. */
  predicate ChildrenOf(parent: Tag, ns: seq<Node>) {
    forall i :: 0 <= i < |ns| ==> ns[i] in parent.content
  }

  /** The element names of a tree in document order (preorder). */
  function Names(t: Tag): seq<string>
    decreases t, 1
  {
    [t.name] + ContentNames(t, t.content)
  }

  function ContentNames(ghost parent: Tag, ns: seq<Node>): seq<string>
    requires ChildrenOf(parent, ns)
    decreases parent, 0, |ns|
  {
    if ns == [] then []
    else (match ns[0] case Raw(_) => [] case Elem(t) => Names(t)) + ContentNames(parent, ns[1..])
  }

  /** The raw fragments of a tree in document order. */
  function Fragments(t: Tag): seq<string>
    decreases t, 1
  {
    ContentFragments(t, t.content)
  }

  function ContentFragments(ghost parent: Tag, ns: seq<Node>): seq<string>
    requires ChildrenOf(parent, ns)
    decreases parent, 0, |ns|
  {
    if ns == [] then []
    else (match ns[0] case Raw(s) => [s] case Elem(t) => Fragments(t)) + ContentFragments(parent, ns[1..])
  }

  /** No element of the tree HTML-encodes its content. */
  predicate Unencoded(t: Tag)
    decreases t, 1
  {
    !t.encode && ContentUnencoded(t, t.content)
  }

  predicate ContentUnencoded(ghost parent: Tag, ns: seq<Node>)
    requires ChildrenOf(parent, ns)
    decreases parent, 0, |ns|
  {
    ns != [] ==>
      && (match ns[0] case Raw(_) => true case Elem(t) => Unencoded(t))
      && ContentUnencoded(parent, ns[1..])
  }
}
