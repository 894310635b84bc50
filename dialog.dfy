/**
 * The dialog widget: a builder for a native `<dialog>` element assembled from
 * caller-supplied fragments (root attributes, header, body, footer, close
 * button attributes and label).
 *
 * The `With...` setters copy the widget and change one field; `GetId` and
 * `Render` change the root attributes in place; `Begin` and `Render` share the
 * output buffer from which an empty body is taken. The rendered markup is an
 * element tree (`Html.Tag`) rather than a serialised string.
 */
module Dialogs {
  import opened Wrappers
  import opened Html
  import opened Buffers

  // Public attribute names that the page script reads.
  const CLOSE_DIALOG_ATTRIBUTE := "data-close-dialog"
  const IS_MODAL_ATTRIBUTE := "data-is-modal"
  const IS_NOT_MODAL := "false"
  const OPEN_DIALOG_ATTRIBUTE := "data-open-dialog"

  // Private constants of the widget.
  const CLOSE_DIALOG_ARIA_LABEL := "close dialog"
  const CLOSE_DIALOG_CLASS := "close-dialog"
  const DIALOG_CLASS := "dialog"
  const DIALOG_BODY_CLASS := "dialog-body"
  const DIALOG_FOOTER_CLASS := "dialog-footer"
  const DIALOG_HEADER_CLASS := "dialog-header"
  const DIALOG_HEADER_CONTENT_CLASS := "dialog-header-content"
  const ID_PREFIX := "dialog-"

  const ID := "id"
  const ARIA_LABEL := "aria-label"
  const TYPE := "type"
  /** The literal the close button passes to `type(...)`. */
  const BUTTON_TYPE := "reset#"
  const DEFAULT_BUTTON_LABEL := "&times;"

  /** The six fields of a widget, as one value. */
  datatype Settings = Settings(
    attributes: Attributes,
    body: string,
    buttonAttributes: Attributes,
    buttonLabel: string,
    footer: string,
    header: string)

  const DEFAULTS := Settings(map[], "", map[], DEFAULT_BUTTON_LABEL, "", "")

  // ---------------------------------------------------------------------
  // Identifier
  // ---------------------------------------------------------------------

  /**
   * The root attributes once an identifier is resolved: a supplied `id` is
   * kept, otherwise the generated one, `ID_PREFIX + suffix`, is inserted.
   * `suffix` stands for the part of `Html::generateId` that is not modelled.
   */
  function AssignId(attrs: Attributes, suffix: string): (r: Attributes)
    ensures ID in r && r.Keys == attrs.Keys + {ID}
    ensures ID in attrs ==> r == attrs
    ensures ID !in attrs ==> r[ID] == Text(ID_PREFIX + suffix)
    ensures forall k :: k in attrs ==> r[k] == attrs[k]
  {
    if ID in attrs then attrs else attrs[ID := Text(ID_PREFIX + suffix)]
  }

  /** The attributes the rendered root carries: an id and the dialog class. */
  function RootAttributes(attrs: Attributes, suffix: string): (r: Attributes)
    requires ClassWellFormed(attrs)
    ensures ID in r && r[ID] == AssignId(attrs, suffix)[ID]
    ensures r.Keys == attrs.Keys + {ID, CLASS}
    ensures forall k :: k in attrs && k != CLASS ==> k in r && r[k] == attrs[k]
  {
    var identified := AssignId(attrs, suffix);
    AddCssClass(identified, DIALOG_CLASS)
  }

  // ---------------------------------------------------------------------
  // Parts of the dialog
  // ---------------------------------------------------------------------

  /** The entries `renderButton` merges over the caller's button attributes. */
  const RESERVED_BUTTON_ATTRIBUTES: Attributes :=
    map[ARIA_LABEL := Text(CLOSE_DIALOG_ARIA_LABEL), CLOSE_DIALOG_ATTRIBUTE := Flag(true)]

  /**
   * The close button's attributes before its `type` is set: `array_merge`
   * lets the reserved entries override whatever the caller put under those
   * keys, every other caller entry survives, and the class entry is merged
   * (see `CloseButtonClassMerged`).
   */
  function CloseButtonAttributes(buttonAttributes: Attributes): (r: Attributes)
    requires ClassWellFormed(buttonAttributes)
    ensures r.Keys == buttonAttributes.Keys + {ARIA_LABEL, CLOSE_DIALOG_ATTRIBUTE, CLASS}
    ensures r[ARIA_LABEL] == Text(CLOSE_DIALOG_ARIA_LABEL)
    ensures r[CLOSE_DIALOG_ATTRIBUTE] == Flag(true)
    ensures forall k :: k in buttonAttributes && k !in {ARIA_LABEL, CLOSE_DIALOG_ATTRIBUTE, CLASS} ==>
      r[k] == buttonAttributes[k]
  {
    AddCssClass(buttonAttributes + RESERVED_BUTTON_ATTRIBUTES, CLOSE_DIALOG_CLASS)
  }

  /** The close class joins the caller's button classes; none is dropped. */
  lemma CloseButtonClassMerged(buttonAttributes: Attributes)
    requires ClassWellFormed(buttonAttributes)
    ensures Classes(CloseButtonAttributes(buttonAttributes))
         == MergeClasses(Classes(buttonAttributes), CLOSE_DIALOG_CLASS)
  {
    var merged := buttonAttributes + RESERVED_BUTTON_ATTRIBUTES;
    ClassesAgree(merged, buttonAttributes);
    AddCssClassMerges(merged, CLOSE_DIALOG_CLASS);
  }

  /**
   * The close button: the attributes above with `type` set to the literal
   * `reset#` (set after them, so it wins too), and the label as content.
   */
  function RenderButton(buttonAttributes: Attributes, buttonLabel: string): (b: Tag)
    requires ClassWellFormed(buttonAttributes)
    ensures b.name == "button" && b.content == [Raw(buttonLabel)] && !b.encode
    ensures b.attrs.Keys == CloseButtonAttributes(buttonAttributes).Keys + {TYPE}
    ensures b.attrs[TYPE] == Text(BUTTON_TYPE)
    ensures forall k :: k in CloseButtonAttributes(buttonAttributes) && k != TYPE ==>
      b.attrs[k] == CloseButtonAttributes(buttonAttributes)[k]
  {
    Tag("button", CloseButtonAttributes(buttonAttributes)[TYPE := Text(BUTTON_TYPE)], [Raw(buttonLabel)], false)
  }

  function RenderHeaderContent(header: string): Tag {
    Tag("div", map[CLASS := Text(DIALOG_HEADER_CONTENT_CLASS)], [Raw(header)], false)
  }

  function RenderHeader(header: string, buttonAttributes: Attributes, buttonLabel: string): Tag
    requires ClassWellFormed(buttonAttributes)
  {
    Tag("header", map[CLASS := Text(DIALOG_HEADER_CLASS)],
        [Elem(RenderHeaderContent(header)), Elem(RenderButton(buttonAttributes, buttonLabel))], false)
  }

  function BodySection(content: string): Tag {
    Tag("section", map[CLASS := Text(DIALOG_BODY_CLASS)], [Raw(content)], false)
  }

  /** The footer part: nothing at all for an empty footer. */
  function RenderFooter(footer: string): seq<Node> {
    if footer == "" then []
    else [Elem(Tag("footer", map[CLASS := Text(DIALOG_FOOTER_CLASS)], [Raw(footer)], false))]
  }

  /** `(string)ob_get_clean()` read off the open levels: "" when none is open. */
  function Captured(levels: seq<string>): string {
    if levels == [] then "" else levels[|levels| - 1]
  }

  /** The levels left open once `ob_get_clean()` has run. */
  function Closed(levels: seq<string>): seq<string> {
    if levels == [] then [] else levels[..|levels| - 1]
  }

  /** What the body section holds: the body, or the captured output when it is empty. */
  function BodyContent(body: string, levels: seq<string>): string {
    if body == "" then Captured(levels) else body
  }

  /** The whole rendered dialog, given the resolved root attributes. */
  function DialogTag(attrs: Attributes, header: string, buttonAttributes: Attributes,
                     buttonLabel: string, bodyContent: string, footer: string): Tag
    requires ClassWellFormed(buttonAttributes)
  {
    Tag("dialog", attrs,
        [Elem(RenderHeader(header, buttonAttributes, buttonLabel)), Elem(BodySection(bodyContent))]
          + RenderFooter(footer),
        false)
  }

  // ---------------------------------------------------------------------
  // The widget
  // ---------------------------------------------------------------------

  class Dialog {
    var attributes: Attributes
    var body: string
    var buttonAttributes: Attributes
    var buttonLabel: string
    var footer: string
    var header: string

    function View(): Settings
      reads this
    {
      Settings(attributes, body, buttonAttributes, buttonLabel, footer, header)
    }

    constructor ()
      ensures View() == DEFAULTS
    {
      attributes := map[];
      body := "";
      buttonAttributes := map[];
      buttonLabel := DEFAULT_BUTTON_LABEL;
      footer := "";
      header := "";
    }

    /** PHP's `clone`: a new widget with the same field values. */
    constructor Clone(from: Dialog)
      ensures View() == from.View()
    {
      attributes := from.attributes;
      body := from.body;
      buttonAttributes := from.buttonAttributes;
      buttonLabel := from.buttonLabel;
      footer := from.footer;
      header := from.header;
    }

    method WithAttributes(value: Attributes) returns (d: Dialog)
      ensures fresh(d) && unchanged(this)
      ensures d.View() == View().(attributes := value)
    {
      d := new Dialog.Clone(this);
      d.attributes := value;
    }

    method WithBody(value: string) returns (d: Dialog)
      ensures fresh(d) && unchanged(this)
      ensures d.View() == View().(body := value)
    {
      d := new Dialog.Clone(this);
      d.body := value;
    }

    method WithButtonAttributes(value: Attributes) returns (d: Dialog)
      ensures fresh(d) && unchanged(this)
      ensures d.View() == View().(buttonAttributes := value)
    {
      d := new Dialog.Clone(this);
      d.buttonAttributes := value;
    }

    /** The label defaults to the empty string when the argument is omitted. */
    method WithButtonLabel(value: string := "") returns (d: Dialog)
      ensures fresh(d) && unchanged(this)
      ensures d.View() == View().(buttonLabel := value)
    {
      d := new Dialog.Clone(this);
      d.buttonLabel := value;
    }

    method WithFooter(value: string) returns (d: Dialog)
      ensures fresh(d) && unchanged(this)
      ensures d.View() == View().(footer := value)
    {
      d := new Dialog.Clone(this);
      d.footer := value;
    }

    method WithHeader(value: string) returns (d: Dialog)
      ensures fresh(d) && unchanged(this)
      ensures d.View() == View().(header := value)
    {
      d := new Dialog.Clone(this);
      d.header := value;
    }

    /** Sets only the `id` entry of the root attributes. */
    method WithId(value: string) returns (d: Dialog)
      ensures fresh(d) && unchanged(this)
      ensures d.View() == View().(attributes := attributes[ID := Text(value)])
    {
      d := new Dialog.Clone(this);
      d.attributes := d.attributes[ID := Text(value)];
    }

    /** Opens the capture of the body: `ob_start()`. */
    method Begin(out: OutputBuffer)
      modifies out
      ensures out.levels == old(out.levels) + [""] && out.sent == old(out.sent)
    {
      out.Start();
    }

    /**
     * The identifier, assigned once: a supplied `id` is returned as it is,
     * otherwise the generated one is stored and returned. The declared
     * return type is `string`, so an `id` entry must be text.
     */
    method GetId(suffix: string) returns (id: string)
      requires ID in attributes ==> attributes[ID].Text?
      modifies this`attributes
      ensures attributes == AssignId(old(attributes), suffix)
      ensures attributes[ID] == Text(id)
      ensures ID in old(attributes) ==> id == old(attributes)[ID].s
      ensures ID !in old(attributes) ==> id == ID_PREFIX + suffix
    {
      if ID !in attributes {
        attributes := attributes[ID := Text(ID_PREFIX + suffix)];
      }
      id := attributes[ID].s;
    }

    /** The body section: an empty body drains the innermost capture level. */
    method RenderBody(out: OutputBuffer) returns (section: Tag)
      modifies out
      ensures section == BodySection(BodyContent(body, old(out.levels)))
      ensures out.sent == old(out.sent)
      ensures body != "" ==> out.levels == old(out.levels)
      ensures body == "" ==> out.levels == Closed(old(out.levels))
    {
      var content := body;
      if body == "" {
        var captured := out.GetClean();
        content := match captured case Some(c) => c case None => "";
      }
      section := BodySection(content);
    }

    method Render(suffix: string, out: OutputBuffer) returns (root: Tag)
      requires ClassWellFormed(attributes) && ClassWellFormed(buttonAttributes)
      modifies this`attributes, out
      ensures attributes == RootAttributes(old(attributes), suffix)
      ensures root == DialogTag(attributes, header, buttonAttributes, buttonLabel,
                                BodyContent(body, old(out.levels)), footer)
      ensures out.sent == old(out.sent)
      ensures body != "" ==> out.levels == old(out.levels)
      ensures body == "" ==> out.levels == Closed(old(out.levels))
    {
      if ID !in attributes {
        attributes := attributes[ID := Text(ID_PREFIX + suffix)];
      }
      assert attributes == AssignId(old(attributes), suffix);
      attributes := AddCssClass(attributes, DIALOG_CLASS);
      var headerSection := RenderHeader(header, buttonAttributes, buttonLabel);
      var bodySection := RenderBody(out);
      root := Tag("dialog", attributes,
                  [Elem(headerSection), Elem(bodySection)] + RenderFooter(footer), false);
    }
  }
}
