/**
 * What the rendered dialog looks like, proved of the specification functions
 * in `Dialogs`, and client methods that show the widget's lifecycle
 * guarantees (identifier stability, deferred body capture) from the methods'
 * contracts alone.
 */
module DialogLaws {
  import opened Html
  import opened Buffers
  import opened Dialogs

  // ---------------------------------------------------------------------
  // Walking small trees
  // ---------------------------------------------------------------------

  /** An element whose content is the single fragment `s`. */
  lemma LeafWalks(t: Tag, s: string)
    requires t.content == [Raw(s)]
    ensures Names(t) == [t.name]
    ensures Fragments(t) == [s]
    ensures Unencoded(t) <==> !t.encode
  {
    var rest := t.content[1..];
    assert rest == [];
    assert ChildrenOf(t, rest);
    assert ContentNames(t, t.content) == [] + ContentNames(t, rest);
    assert ContentFragments(t, t.content) == [s] + ContentFragments(t, rest);
    assert ContentUnencoded(t, t.content) <==> ContentUnencoded(t, rest);
  }

  /** Two child lists of one element, joined, are still its children. */
  lemma ChildrenAppend(parent: Tag, a: seq<Node>, b: seq<Node>)
    requires ChildrenOf(parent, a) && ChildrenOf(parent, b)
    ensures ChildrenOf(parent, a + b)
  {
    forall i | 0 <= i < |a + b| ensures (a + b)[i] in parent.content {
      if i < |a| { assert (a + b)[i] == a[i]; } else { assert (a + b)[i] == b[i - |a|]; }
    }
  }

  // The walks of a content list split in two are the walks of the parts.

  lemma {:induction false} NamesAppend(parent: Tag, a: seq<Node>, b: seq<Node>)
    requires ChildrenOf(parent, a) && ChildrenOf(parent, b)
    ensures ChildrenOf(parent, a + b)
    ensures ContentNames(parent, a + b) == ContentNames(parent, a) + ContentNames(parent, b)
    decreases |a|
  {
    ChildrenAppend(parent, a, b);
    if a == [] {
      assert a + b == b;
    } else {
      assert (a + b)[1..] == a[1..] + b;
      NamesAppend(parent, a[1..], b);
    }
  }

  lemma {:induction false} FragmentsAppend(parent: Tag, a: seq<Node>, b: seq<Node>)
    requires ChildrenOf(parent, a) && ChildrenOf(parent, b)
    ensures ChildrenOf(parent, a + b)
    ensures ContentFragments(parent, a + b) == ContentFragments(parent, a) + ContentFragments(parent, b)
    decreases |a|
  {
    ChildrenAppend(parent, a, b);
    if a == [] {
      assert a + b == b;
    } else {
      assert (a + b)[1..] == a[1..] + b;
      FragmentsAppend(parent, a[1..], b);
    }
  }

  lemma {:induction false} UnencodedAppend(parent: Tag, a: seq<Node>, b: seq<Node>)
    requires ChildrenOf(parent, a) && ChildrenOf(parent, b)
    ensures ChildrenOf(parent, a + b)
    ensures ContentUnencoded(parent, a + b) <==> ContentUnencoded(parent, a) && ContentUnencoded(parent, b)
    decreases |a|
  {
    ChildrenAppend(parent, a, b);
    if a == [] {
      assert a + b == b;
    } else {
      assert (a + b)[1..] == a[1..] + b;
      UnencodedAppend(parent, a[1..], b);
    }
  }

  /** All three walks of a joined content list. */
  lemma ContentAppend(parent: Tag, a: seq<Node>, b: seq<Node>)
    requires ChildrenOf(parent, a) && ChildrenOf(parent, b)
    ensures ChildrenOf(parent, a + b)
    ensures ContentNames(parent, a + b) == ContentNames(parent, a) + ContentNames(parent, b)
    ensures ContentFragments(parent, a + b) == ContentFragments(parent, a) + ContentFragments(parent, b)
    ensures ContentUnencoded(parent, a + b) <==> ContentUnencoded(parent, a) && ContentUnencoded(parent, b)
  {
    NamesAppend(parent, a, b);
    FragmentsAppend(parent, a, b);
    UnencodedAppend(parent, a, b);
  }

  /** The walks of a one-element content list are the walks of that element. */
  lemma ContentSingle(parent: Tag, t: Tag)
    requires Elem(t) in parent.content
    ensures ChildrenOf(parent, [Elem(t)])
    ensures ContentNames(parent, [Elem(t)]) == Names(t)
    ensures ContentFragments(parent, [Elem(t)]) == Fragments(t)
    ensures ContentUnencoded(parent, [Elem(t)]) <==> Unencoded(t)
  {
    assert [Elem(t)][1..] == [];
  }

  // ---------------------------------------------------------------------
  // The parts
  // ---------------------------------------------------------------------

  /** The header-content element: a `div` of class `dialog-header-content` wrapping exactly `header`. */
  lemma HeaderContentWalks(header: string)
    ensures RenderHeaderContent(header).attrs == map[CLASS := Text(DIALOG_HEADER_CONTENT_CLASS)]
    ensures Names(RenderHeaderContent(header)) == ["div"]
    ensures Fragments(RenderHeaderContent(header)) == [header]
    ensures Unencoded(RenderHeaderContent(header))
  {
    LeafWalks(RenderHeaderContent(header), header);
  }

  /** The body section: a `section` of class `dialog-body` wrapping exactly `content`. */
  lemma BodySectionWalks(content: string)
    ensures BodySection(content).attrs == map[CLASS := Text(DIALOG_BODY_CLASS)]
    ensures Names(BodySection(content)) == ["section"]
    ensures Fragments(BodySection(content)) == [content]
    ensures Unencoded(BodySection(content))
  {
    LeafWalks(BodySection(content), content);
  }

  /**
   * The body's fallback: a non-empty body is used as given; an empty one is
   * the innermost open level, or "" when none is open. Taking that level off
   * leaves exactly the outer levels.
   */
  lemma BodyFallback(body: string, levels: seq<string>)
    ensures body != "" ==> BodyContent(body, levels) == body
    ensures body == "" && levels != [] ==>
      BodyContent(body, levels) == levels[|levels| - 1] && Closed(levels) + [Captured(levels)] == levels
    ensures body == "" && levels == [] ==> BodyContent(body, levels) == "" && Closed(levels) == []
  {
    if levels != [] {
      assert levels == levels[..|levels| - 1] + [levels[|levels| - 1]];
    }
  }

  /**
   * The header section is the header-content element wrapping `header`,
   * then the close button wrapping its label; nothing is encoded.
   */
  lemma HeaderWalks(header: string, buttonAttributes: Attributes, buttonLabel: string)
    requires ClassWellFormed(buttonAttributes)
    ensures Names(RenderHeader(header, buttonAttributes, buttonLabel)) == ["header", "div", "button"]
    ensures Fragments(RenderHeader(header, buttonAttributes, buttonLabel)) == [header, buttonLabel]
    ensures Unencoded(RenderHeader(header, buttonAttributes, buttonLabel))
    ensures RenderHeader(header, buttonAttributes, buttonLabel).attrs == map[CLASS := Text(DIALOG_HEADER_CLASS)]
  {
    var h := RenderHeader(header, buttonAttributes, buttonLabel);
    var div := RenderHeaderContent(header);
    var button := RenderButton(buttonAttributes, buttonLabel);
    LeafWalks(div, header);
    LeafWalks(button, buttonLabel);
    assert h.content == [Elem(div)] + [Elem(button)];
    ContentSingle(h, div);
    ContentSingle(h, button);
    ContentAppend(h, [Elem(div)], [Elem(button)]);
  }

  /**
   * The footer part is empty exactly when the footer is; otherwise it is one
   * `footer` element, with the footer class, wrapping exactly `footer`.
   */
  lemma FooterWalks(parent: Tag, footer: string)
    requires ChildrenOf(parent, RenderFooter(footer))
    ensures RenderFooter(footer) == [] <==> footer == ""
    ensures ContentNames(parent, RenderFooter(footer)) == if footer == "" then [] else ["footer"]
    ensures ContentFragments(parent, RenderFooter(footer)) == if footer == "" then [] else [footer]
    ensures ContentUnencoded(parent, RenderFooter(footer))
    ensures footer != "" ==> RenderFooter(footer)[0].tag.attrs == map[CLASS := Text(DIALOG_FOOTER_CLASS)]
  {
    if footer != "" {
      var f := RenderFooter(footer)[0].tag;
      LeafWalks(f, footer);
      ContentSingle(parent, f);
    }
  }

  // ---------------------------------------------------------------------
  // The whole dialog
  // ---------------------------------------------------------------------

  // A `dialog` root over a header section `h`, a body section `b` and the
  // footer part, walk by walk.

  lemma RootNames(attrs: Attributes, h: Tag, b: Tag, footer: string)
    requires Names(h) == ["header", "div", "button"] && Names(b) == ["section"]
    ensures Names(Tag("dialog", attrs, [Elem(h), Elem(b)] + RenderFooter(footer), false))
         == ["dialog", "header", "div", "button", "section"] + (if footer == "" then [] else ["footer"])
  {
    var f := RenderFooter(footer);
    var hb := [Elem(h), Elem(b)];
    var root := Tag("dialog", attrs, hb + f, false);
    var front := ["header", "div", "button", "section"];
    var back := if footer == "" then [] else ["footer"];
    assert ChildrenOf(root, hb) && ContentNames(root, hb) == front by {
      assert hb == [Elem(h)] + [Elem(b)];
      ContentSingle(root, h);
      ContentSingle(root, b);
      NamesAppend(root, [Elem(h)], [Elem(b)]);
    }
    assert ChildrenOf(root, f) && ContentNames(root, f) == back by {
      FooterWalks(root, footer);
    }
    assert ContentNames(root, hb + f) == front + back by {
      NamesAppend(root, hb, f);
    }
    assert ["dialog"] + (front + back) == ["dialog", "header", "div", "button", "section"] + back;
  }

  lemma RootFragments(attrs: Attributes, h: Tag, b: Tag, footer: string,
                      header: string, buttonLabel: string, bodyContent: string)
    requires Fragments(h) == [header, buttonLabel] && Fragments(b) == [bodyContent]
    ensures Fragments(Tag("dialog", attrs, [Elem(h), Elem(b)] + RenderFooter(footer), false))
         == [header, buttonLabel, bodyContent] + (if footer == "" then [] else [footer])
  {
    var f := RenderFooter(footer);
    var hb := [Elem(h), Elem(b)];
    var root := Tag("dialog", attrs, hb + f, false);
    var back := if footer == "" then [] else [footer];
    assert ChildrenOf(root, hb) && ContentFragments(root, hb) == [header, buttonLabel, bodyContent] by {
      assert hb == [Elem(h)] + [Elem(b)];
      ContentSingle(root, h);
      ContentSingle(root, b);
      FragmentsAppend(root, [Elem(h)], [Elem(b)]);
    }
    assert ChildrenOf(root, f) && ContentFragments(root, f) == back by {
      FooterWalks(root, footer);
    }
    FragmentsAppend(root, hb, f);
  }

  lemma RootUnencoded(attrs: Attributes, h: Tag, b: Tag, footer: string)
    requires Unencoded(h) && Unencoded(b)
    ensures Unencoded(Tag("dialog", attrs, [Elem(h), Elem(b)] + RenderFooter(footer), false))
  {
    var f := RenderFooter(footer);
    var hb := [Elem(h), Elem(b)];
    var root := Tag("dialog", attrs, hb + f, false);
    assert ChildrenOf(root, hb) && ContentUnencoded(root, hb) by {
      assert hb == [Elem(h)] + [Elem(b)];
      ContentSingle(root, h);
      ContentSingle(root, b);
      UnencodedAppend(root, [Elem(h)], [Elem(b)]);
    }
    assert ChildrenOf(root, f) && ContentUnencoded(root, f) by {
      FooterWalks(root, footer);
    }
    UnencodedAppend(root, hb, f);
  }

  /**
   * The dialog's outline is fixed: a `dialog` root holding the header section
   * (header content, then close button), the body section, and a footer
   * element only for a non-empty footer. Every fragment appears once, in
   * that order, as given, and no element encodes its content.
   */
  lemma DialogOutline(attrs: Attributes, header: string, buttonAttributes: Attributes,
                      buttonLabel: string, bodyContent: string, footer: string)
    requires ClassWellFormed(buttonAttributes)
    ensures var root := DialogTag(attrs, header, buttonAttributes, buttonLabel, bodyContent, footer);
      && root.name == "dialog" && root.attrs == attrs
      && Names(root) == ["dialog", "header", "div", "button", "section"] + (if footer == "" then [] else ["footer"])
      && Fragments(root) == [header, buttonLabel, bodyContent] + (if footer == "" then [] else [footer])
      && Unencoded(root)
  {
    var b := BodySection(bodyContent);
    HeaderWalks(header, buttonAttributes, buttonLabel);
    LeafWalks(b, bodyContent);
    var h := RenderHeader(header, buttonAttributes, buttonLabel);
    RootNames(attrs, h, b, footer);
    RootFragments(attrs, h, b, footer, header, buttonLabel, bodyContent);
    RootUnencoded(attrs, h, b, footer);
  }

  /** The root's children, one by one. */
  lemma DialogChildren(attrs: Attributes, header: string, buttonAttributes: Attributes,
                       buttonLabel: string, bodyContent: string, footer: string)
    requires ClassWellFormed(buttonAttributes)
    ensures var root := DialogTag(attrs, header, buttonAttributes, buttonLabel, bodyContent, footer);
      && root.attrs == attrs
      && |root.content| == (if footer == "" then 2 else 3)
      && root.content[0] == Elem(RenderHeader(header, buttonAttributes, buttonLabel))
      && root.content[1] == Elem(BodySection(bodyContent))
      && (footer != "" ==> root.content[2] == RenderFooter(footer)[0])
  {
  }

  /** No `footer` element is rendered for an empty footer, and one is for any other. */
  lemma FooterOmittedIffEmpty(attrs: Attributes, header: string, buttonAttributes: Attributes,
                              buttonLabel: string, bodyContent: string, footer: string)
    requires ClassWellFormed(buttonAttributes)
    ensures var root := DialogTag(attrs, header, buttonAttributes, buttonLabel, bodyContent, footer);
      && ("footer" in Names(root) <==> footer != "")
      && (footer == "" <==> |root.content| == 2)
      && (footer != "" ==> root.content[2] == Elem(Tag("footer", map[CLASS := Text(DIALOG_FOOTER_CLASS)], [Raw(footer)], false)))
  {
    DialogOutline(attrs, header, buttonAttributes, buttonLabel, bodyContent, footer);
    DialogChildren(attrs, header, buttonAttributes, buttonLabel, bodyContent, footer);
    var names := ["dialog", "header", "div", "button", "section"];
    assert "footer" !in names by {
      assert names[0] != "footer" && names[1] != "footer" && names[2] != "footer";
      assert names[3] != "footer" && names[4] != "footer";
    }
    if footer != "" {
      assert "footer" == (names + ["footer"])[5];
    }
  }

  /**
   * The root carries the dialog class and every class token the caller
   * supplied, in the caller's order: classes merge, they are not replaced.
   */
  lemma RootClassMerged(attrs: Attributes, suffix: string)
    requires ClassWellFormed(attrs)
    ensures Classes(RootAttributes(attrs, suffix)) == MergeClasses(Classes(attrs), DIALOG_CLASS)
    ensures DIALOG_CLASS in Classes(RootAttributes(attrs, suffix))
    ensures forall t :: t in Classes(attrs) ==> t in Classes(RootAttributes(attrs, suffix))
  {
    var identified := AssignId(attrs, suffix);
    assert Classes(identified) == Classes(attrs);
    assert IsToken(DIALOG_CLASS);
    AddCssClassMerges(identified, DIALOG_CLASS);
  }

  /**
   * The identifier is assigned once: resolving it again keeps the first
   * value, so a render after `GetId` shows the id `GetId` returned.
   */
  lemma IdAssignedOnce(attrs: Attributes, first: string, second: string)
    requires ClassWellFormed(attrs)
    ensures AssignId(AssignId(attrs, first), second) == AssignId(attrs, first)
    ensures RootAttributes(AssignId(attrs, first), second)[ID] == AssignId(attrs, first)[ID]
  {
    assert ClassWellFormed(AssignId(attrs, first));
  }

  /**
   * The close button carries the reserved label, the close marker and the
   * `reset#` type whatever the caller passed under those keys, keeps every
   * other caller entry, and adds the close class to the caller's classes.
   */
  lemma ReservedButtonAttributesWin(buttonAttributes: Attributes, buttonLabel: string)
    requires ClassWellFormed(buttonAttributes)
    ensures var b := RenderButton(buttonAttributes, buttonLabel);
      && b.attrs[ARIA_LABEL] == Text(CLOSE_DIALOG_ARIA_LABEL)
      && b.attrs[CLOSE_DIALOG_ATTRIBUTE] == Flag(true)
      && b.attrs[TYPE] == Text(BUTTON_TYPE)
      && (forall k :: k in buttonAttributes && k !in {ARIA_LABEL, CLOSE_DIALOG_ATTRIBUTE, CLASS, TYPE} ==>
            k in b.attrs && b.attrs[k] == buttonAttributes[k])
      && Classes(b.attrs) == MergeClasses(Classes(buttonAttributes), CLOSE_DIALOG_CLASS)
      && b.content == [Raw(buttonLabel)]
  {
    var base := CloseButtonAttributes(buttonAttributes);
    var b := RenderButton(buttonAttributes, buttonLabel);
    assert b.attrs == base[TYPE := Text(BUTTON_TYPE)];
    CloseButtonClassMerged(buttonAttributes);
    ClassesAgree(b.attrs, base);
  }

  // ---------------------------------------------------------------------
  // Lifecycle, from the methods' contracts
  // ---------------------------------------------------------------------

  /** Asking twice for the identifier gives the same answer. */
  method GetIdTwice(d: Dialog, first: string, second: string) returns (a: string, b: string)
    requires ID in d.attributes ==> d.attributes[ID].Text?
    modifies d`attributes
    ensures a == b
    ensures ID in old(d.attributes) ==> a == old(d.attributes)[ID].s
    ensures ID !in old(d.attributes) ==> a == ID_PREFIX + first
  {
    a := d.GetId(first);
    b := d.GetId(second);
  }

  /** A render after `GetId` carries the id that `GetId` returned. */
  method RenderAfterGetId(d: Dialog, first: string, second: string, out: OutputBuffer)
    returns (id: string, root: Tag)
    requires ID in d.attributes ==> d.attributes[ID].Text?
    requires ClassWellFormed(d.attributes) && ClassWellFormed(d.buttonAttributes)
    modifies d`attributes, out
    ensures ID in root.attrs && root.attrs[ID] == Text(id)
  {
    id := d.GetId(first);
    ghost var identified := d.attributes;
    root := d.Render(second, out);
    IdAssignedOnce(old(d.attributes), first, second);
    DialogChildren(d.attributes, d.header, d.buttonAttributes, d.buttonLabel,
                   BodyContent(d.body, old(out.levels)), d.footer);
    assert root.attrs == RootAttributes(identified, second);
  }

  /** A `GetId` after a render returns the id the rendered root carries. */
  method RenderThenGetId(d: Dialog, first: string, second: string, out: OutputBuffer)
    returns (root: Tag, id: string)
    requires ID in d.attributes ==> d.attributes[ID].Text?
    requires ClassWellFormed(d.attributes) && ClassWellFormed(d.buttonAttributes)
    modifies d`attributes, out
    ensures ID in root.attrs && root.attrs[ID] == Text(id)
  {
    root := d.Render(first, out);
    DialogChildren(d.attributes, d.header, d.buttonAttributes, d.buttonLabel,
                   BodyContent(d.body, old(out.levels)), d.footer);
    id := d.GetId(second);
  }

  /** `WithId` then `WithAttributes`: the later map replaces the whole map, id included. */
  method IdThenAttributes(value: string, m: Attributes) returns (withId: Dialog, replaced: Dialog)
    ensures withId.attributes == map[ID := Text(value)]
    ensures replaced.attributes == m
    ensures withId.body == replaced.body == ""
  {
    var d := new Dialog();
    withId := d.WithId(value);
    replaced := withId.WithAttributes(m);
  }

  /**
   * Deferred capture: output written between `Begin` and `Render` becomes
   * the body when none was set, and the capture level is closed again.
   */
  method DeferredBody(captured: string, suffix: string) returns (root: Tag, out: OutputBuffer)
    ensures |root.content| == 2 && root.content[1] == Elem(BodySection(captured))
    ensures out.levels == [] && out.sent == ""
  {
    out := new OutputBuffer();
    var d := new Dialog();
    d.Begin(out);
    assert out.levels == [""];
    out.Write(captured);
    assert "" + captured == captured;
    assert out.levels == [captured];
    root := d.Render(suffix, out);
    DialogChildren(d.attributes, "", map[], DEFAULT_BUTTON_LABEL, captured, "");
  }

  /** An explicit body is used as given; the captured output stays in the buffer. */
  method ExplicitBodyWins(body: string, captured: string, suffix: string) returns (root: Tag, out: OutputBuffer)
    requires body != ""
    ensures |root.content| == 2 && root.content[1] == Elem(BodySection(body))
    ensures out.levels == [captured]
  {
    out := new OutputBuffer();
    var d := new Dialog();
    d := d.WithBody(body);
    d.Begin(out);
    assert out.levels == [""];
    out.Write(captured);
    assert "" + captured == captured;
    assert out.levels == [captured];
    root := d.Render(suffix, out);
    DialogChildren(d.attributes, "", map[], DEFAULT_BUTTON_LABEL, body, "");
  }

  /**
   * Without `Begin`, an empty body still drains the innermost open level,
   * whoever opened it: output buffered by an enclosing page becomes the body
   * and that level is closed.
   */
  method EmptyBodyWithoutBegin(pageSoFar: string, suffix: string) returns (root: Tag, out: OutputBuffer)
    ensures |root.content| == 2 && root.content[1] == Elem(BodySection(pageSoFar))
    ensures out.levels == [] && out.sent == ""
  {
    out := new OutputBuffer();
    out.Start();
    assert out.levels == [""];
    out.Write(pageSoFar);
    assert "" + pageSoFar == pageSoFar;
    assert out.levels == [pageSoFar];
    var d := new Dialog();
    d := d.WithBody("");
    root := d.Render(suffix, out);
    DialogChildren(d.attributes, "", map[], DEFAULT_BUTTON_LABEL, pageSoFar, "");
  }
}
