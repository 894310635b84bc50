# Dialog widget builder, modelled in Dafny

This project models the `Dialog` widget of the BeastBytes Yii widgets
package (`src/Dialog.php`). The widget builds a native `<dialog>` element
from fragments the caller supplies: root attributes, a header, a body, a
footer, close-button attributes and a close-button label. It also assigns an
identifier to the dialog, and it can take its body from output written
between `begin()` and `render()`.

The project holds five modules:

- `Html` (html.dfy) stands in for the Yii HTML library. It has attribute
  values (`Text`, `Flag`, `List`), an element tree
  (`Tag(name, attrs, content, encode)`, whose content nodes are `Raw`
  fragments or nested `Elem`s), and `AddCssClass`. It also defines three walks
  over a tree in document order: its element names, its raw fragments, and a
  check that no element encodes its content.
- `Buffers` (output_buffer.dfy) makes PHP's output buffering explicit as an
  `OutputBuffer` object. The object holds the stack of open `ob_start` levels
  and the text already sent to the client. `Wrappers` gives it `Option`.
- `Dialogs` (dialog.dfy) holds the constants and the pure render helpers.
  It also holds the `Dialog` class, whose fields are the six PHP fields.
- `DialogLaws` (dialog_laws.dfy) holds the lemmas about the rendered tree. It
  also holds client methods that derive the lifecycle guarantees from the
  methods' contracts.

Modelling choices:

- The `with` setters (`attributes`, `body`, …, `id`) are methods named
  `WithAttributes`, `WithBody`, … `WithId`. Each allocates a clone and
  changes one field of it. Their contracts compare the whole `View()` of the
  result with the receiver's.
- `getId` and `render` update `attributes` in place, as the PHP does.
- `Html::generateId('dialog-')` becomes a `suffix` argument to `GetId` and
  `Render`. The generated id is `"dialog-" + suffix`; the rest of the
  generator's scheme is not modelled.
- The output buffer is a separate object that `Begin` and `Render` receive,
  not a field of the widget. In PHP the buffer is process-wide: every clone
  sees the same buffer, and levels nest. `Begin` opens a level. An empty body
  makes `Render` call `ob_get_clean()`, which takes the innermost level and
  closes it; with no level open it gives `""`. A consequence of the code
  (`EmptyBodyWithoutBegin`): a widget that was never begun, with an empty
  body, still drains whatever level is open, including one opened by the
  page around it.
- The body of `Html::addCssClass` is not available, so its behaviour is an
  assumption:
  - a missing class becomes the token;
  - a class list gains the token at its end if it is absent;
  - a class string is split on white space, extended the same way, and joined
    again with single spaces.
  No existing token is dropped. The project proves that splitting the joined
  string gives the tokens back (`Html.SplitJoin`), so a class string and a
  class list merge the same way.
- The close button's `->type('reset#')` is recorded as the attribute
  `type = "reset#"`. It is set after the caller's attributes, so it overrides
  a caller-supplied `type`.

Two consequences of the code:
- A nested `begin()` is not rejected; PHP's buffer levels simply nest.
- The page script does not guard a missing dialog target. That script is not
  part of this model.

## Model

| member | source | states |
|---|---|---|
| `Html.AddCssClass` | src/Dialog.php:147 | adding a class keeps every other attribute entry as it was; the map gains exactly the `class` key, and it stays a string or a list |
| `Html.AddCssClassMerges` | src/Dialog.php:171 | the class tokens afterwards are the old tokens in order, plus the new token when it was absent; so the token is present and no old token is lost |
| `Dialogs.AssignId` | src/Dialog.php:132-139 | a supplied `id` leaves the map unchanged; a missing one becomes `"dialog-" + suffix`; every existing entry is kept |
| `Dialogs.RootAttributes` | src/Dialog.php:141-147 | the rendered root has the resolved id; its keys are exactly the caller's plus `id` and `class`; every caller entry other than `class` is kept |
| `Dialogs.CloseButtonAttributes` | src/Dialog.php:163-169 | `aria-label = "close dialog"` and `data-close-dialog = true` override caller values; every other caller entry survives; the keys are the caller's plus those two and `class` |
| `Dialogs.CloseButtonClassMerged` | src/Dialog.php:171 | the button's classes are the caller's classes in order, plus `close-dialog` when absent |
| `Dialogs.RenderButton` | src/Dialog.php:161-180 | the button is a `button` element with exactly the label as unencoded content; `type` is `reset#`; all other attributes are those above |
| `Dialogs.Dialog.constructor` | src/Dialog.php:36-41 | a new widget has empty attributes, body, button attributes, footer and header, and the label `&times;` |
| `Dialogs.Dialog.Clone` | src/Dialog.php:45 | a clone has the same six field values as its original |
| `Dialogs.Dialog.WithAttributes` | src/Dialog.php:43-49 | a fresh copy equal to the receiver except that `attributes` is the given map, so an earlier `id` is gone unless the map has one; the receiver is unchanged |
| `Dialogs.Dialog.WithBody` | src/Dialog.php:56-62 | a fresh copy equal to the receiver except for `body`; the receiver is unchanged |
| `Dialogs.Dialog.WithButtonAttributes` | src/Dialog.php:64-70 | a fresh copy equal to the receiver except for `buttonAttributes`; the receiver is unchanged |
| `Dialogs.Dialog.WithButtonLabel` | src/Dialog.php:77-83 | a fresh copy equal to the receiver except for `buttonLabel`, which is `""` when no argument is given; the receiver is unchanged |
| `Dialogs.Dialog.WithFooter` | src/Dialog.php:90-96 | a fresh copy equal to the receiver except for `footer`; the receiver is unchanged |
| `Dialogs.Dialog.WithHeader` | src/Dialog.php:103-109 | a fresh copy equal to the receiver except for `header`; the receiver is unchanged |
| `Dialogs.Dialog.WithId` | src/Dialog.php:116-122 | a fresh copy whose attributes are the receiver's with only `id` set to the value; every other field equal; the receiver unchanged |
| `Dialogs.Dialog.Begin` | src/Dialog.php:124-130 | opens one new, empty, innermost capture level and changes nothing else |
| `Dialogs.Dialog.GetId` | src/Dialog.php:132-139 | returns a supplied id unchanged and leaves the attributes alone; otherwise stores `"dialog-" + suffix` and returns it; afterwards `attributes["id"]` is the returned value |
| `Dialogs.Dialog.RenderBody` | src/Dialog.php:182-190 | a non-empty body is the section content and the buffer is untouched; an empty body yields the innermost captured output (or `""`) and closes that level |
| `Dialogs.Dialog.Render` | src/Dialog.php:141-159 | the new attributes are the old ones with the id resolved and the dialog class merged; the result is the dialog tree over those attributes, the fields and the body content; the buffer changes as in `RenderBody` |
| `Buffers.OutputBuffer.Start` | src/Dialog.php:127 | `ob_start` pushes an empty innermost level |
| `Buffers.OutputBuffer.GetClean` | src/Dialog.php:186 | `ob_get_clean` returns and closes the innermost level; with none open it returns no value and changes nothing |
| `DialogLaws.HeaderContentWalks` | src/Dialog.php:217-225 | `RenderHeaderContent` (renderHeaderContent): a `div` of class `dialog-header-content` whose only fragment is the header, unencoded |
| `DialogLaws.HeaderWalks` | src/Dialog.php:204-215 | `RenderHeader` (renderHeader): a `header` of class `dialog-header` over (`div` with the header, `button` with the label): fragments in that order, none encoded |
| `DialogLaws.BodySectionWalks` | src/Dialog.php:184-189 | `BodySection` (the tag renderBody builds): a `section` of class `dialog-body` whose only fragment is the content, unencoded |
| `DialogLaws.BodyFallback` | src/Dialog.php:186 | `BodyContent`, `Captured`, `Closed`: a non-empty body is used as given; an empty one is the innermost open level, or `""` with none open; closing takes exactly that level off |
| `DialogLaws.FooterWalks` | src/Dialog.php:192-202 | `RenderFooter` (renderFooter): the footer part is empty iff the footer is `""`; otherwise one `footer` element of class `dialog-footer` holding exactly the footer, unencoded |
| `DialogLaws.DialogOutline` | src/Dialog.php:149-158 | `DialogTag` (the `CustomTag::name('dialog')` composition): the root is `dialog` with the resolved attributes; elements are dialog, header, div, button, section, then footer only if non-empty; fragments are header, label, body, then footer, verbatim; no element encodes |
| `DialogLaws.DialogChildren` | src/Dialog.php:149-155 | `DialogTag`: the root's children are the header section, the body section, and the footer element when the footer is non-empty |
| `DialogLaws.FooterOmittedIffEmpty` | src/Dialog.php:194-201 | a `footer` element appears iff the footer is non-empty; the root then has three children, the last wrapping exactly the footer |
| `DialogLaws.RootClassMerged` | src/Dialog.php:143-147 | the root's classes are the caller's classes in order, plus `dialog` when absent: `dialog` is present and no caller token is dropped |
| `DialogLaws.IdAssignedOnce` | src/Dialog.php:134-145 | resolving the id a second time keeps the first value, so the rendered id is the one `getId` stored |
| `DialogLaws.ReservedButtonAttributesWin` | src/Dialog.php:163-177 | the reserved label, close marker and type win over caller values; other caller entries are kept; the close class is merged; the content is the label |
| `DialogLaws.GetIdTwice` | src/Dialog.php:132-139 | two `getId` calls return the same value: the supplied id, or the generated one from the first call |
| `DialogLaws.RenderAfterGetId` | src/Dialog.php:134-145 | a render after `getId` carries, as root `id`, the value `getId` returned |
| `DialogLaws.RenderThenGetId` | src/Dialog.php:132-145 | a `getId` after a render returns the id the rendered root carries |
| `DialogLaws.IdThenAttributes` | src/Dialog.php:116-122 | `id(v)` on a new widget gives attributes `{id: v}`; a later `attributes(m)` gives exactly `m` |
| `DialogLaws.DeferredBody` | src/Dialog.php:124-130 | output written between `begin` and `render` on a widget without a body is the body section's content, and the capture level is closed |
| `DialogLaws.ExplicitBodyWins` | src/Dialog.php:186 | a non-empty body is used as given, and the captured output stays in its open level |
| `DialogLaws.EmptyBodyWithoutBegin` | src/Dialog.php:182-190 | with an empty body and no `begin`, the innermost level open around the widget becomes the body and is closed |

## Left out

- resources/assets/dialog/dialog.js: the browser script that wires clicks to `show`, `showModal` and `close`. It is DOM event wiring with one string comparison. Only the attribute-name constants it reads are kept (`OPEN_DIALOG_ATTRIBUTE`, `IS_MODAL_ATTRIBUTE`, `IS_NOT_MODAL`, `CLOSE_DIALOG_ATTRIBUTE`).
- src/Assets/DialogAsset.php: static asset paths with no logic.
- `parent::begin()` and the widget stack of the Yii widget base class are not part of this model. `ob_implicit_flush(false)` has no effect on what is captured, so it is not modelled either.
- The serialisation of a tree to HTML text and the escaping of attribute values are not modelled: the library serializer is not part of this model, and the result is a tree.
- Html::generateId: the scheme beyond the prefix is a caller-supplied `suffix`. Uniqueness across dialogs is therefore not modelled.
- Html.AddCssClass: the library may also remove duplicate class tokens that the caller supplied. The model keeps the caller's tokens exactly; this is stated as an assumption, because the library's code is not available.
- Html.ClassWellFormed: a boolean class value would make the library's class merge fail with a type error. `Render` and the button functions require a string or list class value instead of modelling that error.
- Dialogs.Dialog.GetId: requires a textual `id` entry. With any other value, PHP's declared `string` return type raises a type error, which is not modelled.
- Attribute values that are PHP `null`, and integer-like attribute keys (which `array_merge` renumbers), are not modelled: keys are strings and values are text, booleans or string lists.
- Yii's `Tag::attributes` is assumed to start each tag from no attributes. So a tag's attributes are exactly the map passed, plus `type` on the button.
