/**
 * `lib_c5t_htmlform.{h,cc}`: the `Form`, `Field` and `FormResponse` builders
 * and `FormAsHTML`, which prints a form as a standalone HTML page whose
 * script posts the transformed field values back to the page's own URL.
 * Values are inserted verbatim: nothing is escaped.
 */
module HtmlForm {
  import opened Wrappers
  import opened Texts

  /** What a form handler answers: a message to `alert()` and a path to forward to. */
  datatype FormResponse = FormResponse(msg: Option<string>, fwd: Option<string>)

  const NoResponse: FormResponse := FormResponse(None, None)

  function Msg(r: FormResponse, s: string): (r': FormResponse)
    ensures r'.msg == Some(s) && r'.fwd == r.fwd
  {
    r.(msg := Some(s))
  }

  function Fwd(r: FormResponse, s: string): (r': FormResponse)
    ensures r'.fwd == Some(s) && r'.msg == r.msg
  {
    r.(fwd := Some(s))
  }

  /** `Msg` and `Fwd` touch different members, so their order does not matter. */
  lemma MsgFwdCommute(r: FormResponse, m: string, f: string)
    ensures Msg(Fwd(r, f), m) == Fwd(Msg(r, m), f) == FormResponse(Some(m), Some(f))
  {
  }

  datatype Field = Field(id: string, text: Option<string>, placeholder: Option<string>, value: Option<string>, inputType: Option<string>)

  /** `Field(id)`: only the id is set. */
  function NewField(id: string): (f: Field)
    ensures f.id == id && f.text.None? && f.placeholder.None? && f.value.None? && f.inputType.None?
  {
    Field(id, None, None, None, None)
  }

  /** `Field()`: the id defaults to `id`. */
  const DefaultField: Field := NewField("id")

  function Text(f: Field, s: string): (r: Field)
    ensures r.text == Some(s)
    ensures r.id == f.id && r.placeholder == f.placeholder && r.value == f.value && r.inputType == f.inputType
  {
    f.(text := Some(s))
  }

  function Placeholder(f: Field, s: string): (r: Field)
    ensures r.placeholder == Some(s)
    ensures r.id == f.id && r.text == f.text && r.value == f.value && r.inputType == f.inputType
  {
    f.(placeholder := Some(s))
  }

  function Value(f: Field, s: string): (r: Field)
    ensures r.value == Some(s)
    ensures r.id == f.id && r.text == f.text && r.placeholder == f.placeholder && r.inputType == f.inputType
  {
    f.(value := Some(s))
  }

  function Readonly(f: Field): (r: Field)
    ensures r.inputType == Some("readonly")
    ensures r.id == f.id && r.text == f.text && r.placeholder == f.placeholder && r.value == f.value
  {
    f.(inputType := Some("readonly"))
  }

  function PasswordProtected(f: Field): (r: Field)
    ensures r.inputType == Some("password")
    ensures r.id == f.id && r.text == f.text && r.placeholder == f.placeholder && r.value == f.value
  {
    f.(inputType := Some("password"))
  }

  /** `Readonly` and `PasswordProtected` set the same member: the later call wins. */
  lemma LaterTypeWins(f: Field)
    ensures PasswordProtected(Readonly(f)) == PasswordProtected(f)
    ensures Readonly(PasswordProtected(f)) == Readonly(f)
  {
  }

  /** Setters of different members commute. */
  lemma FieldSettersCommute(f: Field, t: string, p: string, v: string)
    ensures Text(Placeholder(Value(f, v), p), t) == Value(Placeholder(Text(f, t), p), v)
    ensures Readonly(Text(f, t)) == Text(Readonly(f), t)
  {
  }

  datatype Form = Form(title: string, caption: Option<string>, fields: seq<Field>, buttonText: string, onSubmit: string)

  /** A default `Form`. */
  const DefaultForm: Form := Form("Current Form", None, [], "Go", "input")

  /** `Add`: the field goes at the end, the others stay as they were. */
  function Add(form: Form, f: Field): (r: Form)
    ensures |r.fields| == |form.fields| + 1 && r.fields[..|form.fields|] == form.fields && r.fields[|form.fields|] == f
    ensures r.title == form.title && r.caption == form.caption && r.buttonText == form.buttonText && r.onSubmit == form.onSubmit
  {
    form.(fields := form.fields + [f])
  }

  function Title(form: Form, s: string): (r: Form)
    ensures r.title == s
    ensures r.caption == form.caption && r.fields == form.fields && r.buttonText == form.buttonText && r.onSubmit == form.onSubmit
  {
    form.(title := s)
  }

  function Caption(form: Form, s: string): (r: Form)
    ensures r.caption == Some(s)
    ensures r.title == form.title && r.fields == form.fields && r.buttonText == form.buttonText && r.onSubmit == form.onSubmit
  {
    form.(caption := Some(s))
  }

  function ButtonText(form: Form, s: string): (r: Form)
    ensures r.buttonText == s
    ensures r.title == form.title && r.caption == form.caption && r.fields == form.fields && r.onSubmit == form.onSubmit
  {
    form.(buttonText := s)
  }

  function OnSubmit(form: Form, s: string): (r: Form)
    ensures r.onSubmit == s
    ensures r.title == form.title && r.caption == form.caption && r.fields == form.fields && r.buttonText == form.buttonText
  {
    form.(onSubmit := s)
  }

  /** Form setters of different members commute, and a repeated setter keeps only the last value. */
  lemma FormSettersCommute(form: Form, t: string, c: string, b: string, o: string, f: Field)
    ensures Title(Caption(ButtonText(OnSubmit(form, o), b), c), t) == OnSubmit(ButtonText(Caption(Title(form, t), c), b), o)
    ensures Title(Title(form, c), t) == Title(form, t)
    ensures Add(Title(form, t), f) == Title(Add(form, f), t)
  {
  }

  // The page, piece by piece.

  const PageOpen: string := "<!DOCTYPE HTML>\n<html>\n  <head><title>"
  const HeadClose: string := "</title></head>\n  <body>"
  const CaptionOpen: string := "\n    <h2>"
  const FormOpen: string := "\n    <form id=\"form\">"
  const IdIndent: string := "\n        "
  const IdMiddle: string := ": document.getElementById(\""
  const IdClose: string := "\"),"

  /** Lines joined as the page writes them: each after a newline. */
  function Lines(ls: seq<string>): (s: string)
    ensures |ls| > 0 ==> |s| > 0 && s[0] == '\n'
  {
    if |ls| == 0 then "" else "\n" + ls[0] + Lines(ls[1..])
  }

  /** The script after the `e_fields` entries, up to the closing `script` tag. */
  const ScriptLines: seq<string> := [
    "      };",
    "      e_form.addEventListener(\"submit\", (e) => {",
    "        e.preventDefault();",
    "        let input = {};",
    "        for (const f in e_fields) {",
    "          input[f] = e_fields[f].value;",
    "        }",
    "        const sent = transform(input);",
    "        if (sent.error) {",
    "          alert(sent.error);",
    "        } else {",
    "          (async () => {",
    "            const body = JSON.stringify(sent);",
    "            fetch(window.location.href, { method: \"POST\", body }).then(r => r.json()).then(",
    "             j => {",
    "               if (j.msg) {",
    "                 alert(j.msg);",
    "               }",
    "               if (j.fwd) {",
    "                 let u = window.location.href;",
    "                 if (u[u.length - 1] != '/') {",
    "                   u += '/';",
    "                 }",
    "                 if (j.fwd[0] == '/') {",
    "                   u += j.fwd.substr(1);",
    "                 } else {",
    "                   u += j.fwd;",
    "                 }",
    "                 window.location.href = u;",
    "               }",
    "             }",
    "            ).catch(e => {});",
    "          })();",
    "        }",
    "      });"
  ]

  function SubmitScript(): string {
    Lines(ScriptLines)
  }

  /** The end of the page. */
  const PageClose: string := "\n    </script>\n  </body>\n</html>\n"

  function Head(title: string): string {
    PageOpen + title + HeadClose
  }

  function CaptionHTML(caption: Option<string>): (s: string)
    ensures s == "" <==> caption.None?
  {
    if caption.Some? then CaptionOpen + caption.value + "</h2>" else ""
  }

  /** The caption of a field: its text if it has one, else its id. */
  function Label(f: Field): (l: string)
    ensures f.text.Some? ==> l == f.text.value
    ensures f.text.None? ==> l == f.id
  {
    f.text.GetOr(f.id)
  }

  /** An optional attribute: nothing when absent. */
  function Attr(name: string, v: Option<string>): (s: string)
    ensures s == "" <==> v.None?
  {
    if v.Some? then "\n        " + name + "=\"" + v.value + "\"" else ""
  }

  const LabelOpen: string := "\n      <p>"
  const InputOpen: string := "</p>\n      <input\n        type=\"text\"\n        autocomplete=false\n        id=\""
  const InputClose: string := "\n        size=\"100\"\n      />\n      <br>"

  function LabelHTML(f: Field): string {
    LabelOpen + Label(f)
  }

  /** The `<input>` element; `inputType` is not printed. */
  function InputHTML(f: Field): string {
    InputOpen + f.id + "\"" + Attr("placeholder", f.placeholder) + Attr("value", f.value) + InputClose
  }

  /** One field's `<p>` label and `<input>` element. */
  function FieldHTML(f: Field): string {
    LabelHTML(f) + InputHTML(f)
  }

  /** Each element rendered, in order, concatenated. */
  function Join<T>(xs: seq<T>, render: T -> string): string {
    if |xs| == 0 then "" else render(xs[0]) + Join(xs[1..], render)
  }

  lemma {:induction false} JoinAppend<T>(xs: seq<T>, x: T, render: T -> string)
    ensures Join(xs + [x], render) == Join(xs, render) + render(x)
    decreases |xs|
  {
    if |xs| == 0 {
      assert xs + [x] == [x];
    } else {
      assert (xs + [x])[0] == xs[0] && (xs + [x])[1..] == xs[1..] + [x];
      JoinAppend(xs[1..], x, render);
    }
  }

  function FieldsHTML(fs: seq<Field>): string {
    Join(fs, FieldHTML)
  }

  function ButtonHTML(buttonText: string, onSubmit: string): string {
    "\n      <br>\n      <button type=\"submit\">" + buttonText
      + "</button>\n    </form>\n    <script>\n      const transform = (input) => " + onSubmit
      + ";\n      const e_form = document.getElementById(\"form\");\n      const e_fields = {"
  }

  /** One `e_fields` entry: the id as the key, its element as the value. */
  function IdLine(id: string): string {
    IdIndent + id + IdMiddle + id + IdClose
  }

  function IdLineOf(f: Field): string {
    IdLine(f.id)
  }

  function IdsHTML(fs: seq<Field>): string {
    Join(fs, IdLineOf)
  }

  /** A concatenation starts with its first part and ends with its last. */
  predicate EndsWith(s: string, t: string) {
    |t| <= |s| && s[|s| - |t|..] == t
  }

  lemma FramedBy(a: string, b: string, c: string)
    ensures a <= a + b + c
    ensures EndsWith(a + b + c, c)
  {
  }

  /** Everything between the head and the page end. */
  function Body(form: Form): string {
    CaptionHTML(form.caption) + (FormOpen + (FieldsHTML(form.fields)
      + (ButtonHTML(form.buttonText, form.onSubmit) + (IdsHTML(form.fields) + SubmitScript()))))
  }

  /** `FormAsHTML`: the head with the title verbatim, the body, and the fixed page end. */
  function FormAsHTML(form: Form): (html: string)
    ensures Head(form.title) <= html
    ensures EndsWith(html, PageClose)
  {
    var h, b, c := Head(form.title), Body(form), PageClose;
    FramedBy(h, b, c);
    h + b + c
  }

  lemma EndsWithTransitive(s: string, t: string, u: string)
    requires EndsWith(s, t) && EndsWith(t, u)
    ensures EndsWith(s, u)
  {
    assert s[|s| - |u|..] == s[|s| - |t|..][|t| - |u|..];
  }

  lemma PageCloseEndsWithHtmlClose()
    ensures EndsWith(PageClose, "</html>\n")
  {
  }

  /** The page ends with the closing `html` tag and a newline. */
  lemma EndsWithHtmlClose(form: Form)
    ensures EndsWith(FormAsHTML(form), "</html>\n")
  {
    PageCloseEndsWithHtmlClose();
    EndsWithTransitive(FormAsHTML(form), PageClose, "</html>\n");
  }

  // Reading the page back.

  /** The title as a browser would read it: everything up to the next tag. */
  function ExtractTitle(html: string): (t: Option<string>)
    ensures t.Some? ==> '<' !in t.value
  {
    if PageOpen <= html then Some(UpTo(html[|PageOpen|..], '<')) else None
  }

  lemma HeadCloseStartsWithTag()
    ensures |HeadClose| > 0 && HeadClose[0] == '<'
  {
  }

  /** The head, the body and the page end, regrouped around the title. */
  lemma ReadsBackTitle(a: string, b: string, c: string, d: string, e: string)
    requires |c| > 0 && c[0] == '<' && '<' !in b
    ensures a <= (a + b + c) + d + e
    ensures UpTo(((a + b + c) + d + e)[|a|..], '<') == b
  {
    assert ((a + b + c) + d + e)[|a|..] == b + (c + d + e);
    UpToOf(b, '<', c + d + e);
  }

  /**
   * A title without `<` is read back from the page unchanged. Nothing is
   * escaped, so a title with `<` is cut at its first `<` (`TitleIsNotEscaped`).
   */
  lemma TitleRoundTrip(form: Form)
    requires '<' !in form.title
    ensures ExtractTitle(FormAsHTML(form)) == Some(form.title)
  {
    HeadCloseStartsWithTag();
    ReadsBackTitle(PageOpen, form.title, HeadClose, Body(form), PageClose);
  }

  lemma ReadsBackCut(a: string, pre: string, post: string, c: string, d: string, e: string)
    requires '<' !in pre
    ensures a <= (a + (pre + "<" + post) + c) + d + e
    ensures UpTo(((a + (pre + "<" + post) + c) + d + e)[|a|..], '<') == pre
  {
    assert ((a + (pre + "<" + post) + c) + d + e)[|a|..] == pre + ("<" + post + c + d + e);
    UpToOf(pre, '<', "<" + post + c + d + e);
  }

  /** Nothing is escaped: a title is read back only up to its first `<`. */
  lemma TitleIsNotEscaped(form: Form, pre: string, post: string)
    requires '<' !in pre && form.title == pre + "<" + post
    ensures ExtractTitle(FormAsHTML(form)) == Some(pre)
  {
    ReadsBackCut(PageOpen, pre, post, HeadClose, Body(form), PageClose);
  }

  /** What follows the head: the body, then the page end. */
  lemma AfterHead(h: string, x: string, y: string, r: string, c: string)
    ensures |h| <= |h + (x + (y + r)) + c|
    ensures (h + (x + (y + r)) + c)[|h|..] == x + (y + (r + c))
  {
  }

  lemma CaptionOpenIsNotFormOpen()
    ensures |CaptionOpen| == 9 && |FormOpen| > 9 && CaptionOpen[6] == 'h' && FormOpen[6] == 'f'
  {
  }

  lemma CaptionAt(caption: Option<string>, t: string)
    ensures CaptionOpen <= CaptionHTML(caption) + (FormOpen + t) <==> caption.Some?
    ensures caption.Some? ==> CaptionOpen + caption.value + "</h2>" <= CaptionHTML(caption) + (FormOpen + t)
  {
    CaptionOpenIsNotFormOpen();
    if caption.None? {
      assert (CaptionHTML(caption) + (FormOpen + t))[6] == 'f';
    } else {
      assert CaptionHTML(caption) == CaptionOpen + (caption.value + "</h2>");
    }
  }

  /** A `<h2>` caption follows the head exactly when the form has a caption. */
  lemma CaptionShownIff(form: Form)
    ensures var after := FormAsHTML(form)[|Head(form.title)|..];
            && (CaptionOpen <= after <==> form.caption.Some?)
            && (form.caption.Some? ==> CaptionOpen + form.caption.value + "</h2>" <= after)
  {
    var t := FieldsHTML(form.fields)
      + (ButtonHTML(form.buttonText, form.onSubmit) + (IdsHTML(form.fields) + SubmitScript()));
    AfterHead(Head(form.title), CaptionHTML(form.caption), FormOpen, t, PageClose);
    CaptionAt(form.caption, t + PageClose);
  }

  // One block per field, in order.

  /** `Add` puts the new field's block after every earlier one, and its id after theirs in `e_fields`. */
  lemma AddAppendsBlock(form: Form, f: Field)
    ensures FieldsHTML(Add(form, f).fields) == FieldsHTML(form.fields) + FieldHTML(f)
    ensures IdsHTML(Add(form, f).fields) == IdsHTML(form.fields) + IdLine(f.id)
  {
    JoinAppend(form.fields, f, FieldHTML);
    JoinAppend(form.fields, f, IdLineOf);
  }

  /** A field's block opens with its label: the text when set, otherwise the id. */
  lemma LabelShown(f: Field)
    ensures f.text.Some? ==> LabelOpen + f.text.value <= FieldHTML(f)
    ensures f.text.None? ==> LabelOpen + f.id <= FieldHTML(f)
  {
  }

  /** `placeholder="…"` and `value="…"` change the block exactly when present. */
  lemma OptionalAttributesShownIff(f: Field)
    ensures FieldHTML(f) != FieldHTML(f.(placeholder := None)) <==> f.placeholder.Some?
    ensures FieldHTML(f) != FieldHTML(f.(value := None)) <==> f.value.Some?
  {
    assert |FieldHTML(f)| == |FieldHTML(f.(placeholder := None))| + |Attr("placeholder", f.placeholder)|;
    assert |FieldHTML(f)| == |FieldHTML(f.(value := None))| + |Attr("value", f.value)|;
  }

  /** The input type is never printed: fields that differ only in it print the same. */
  lemma {:induction false} TypeNotPrinted(fs: seq<Field>, gs: seq<Field>)
    requires |fs| == |gs|
    requires forall i :: 0 <= i < |fs| ==> fs[i].(inputType := None) == gs[i].(inputType := None)
    ensures FieldsHTML(fs) == FieldsHTML(gs) && IdsHTML(fs) == IdsHTML(gs)
    decreases |fs|
  {
    if |fs| > 0 {
      assert fs[0].(inputType := None) == gs[0].(inputType := None);
      assert FieldHTML(fs[0]) == FieldHTML(gs[0]) && IdLineOf(fs[0]) == IdLineOf(gs[0]);
      TypeNotPrinted(fs[1..], gs[1..]);
      assert FieldsHTML(fs) == FieldHTML(fs[0]) + FieldsHTML(fs[1..]);
      assert FieldsHTML(gs) == FieldHTML(gs[0]) + FieldsHTML(gs[1..]);
      assert IdsHTML(fs) == IdLineOf(fs[0]) + IdsHTML(fs[1..]);
      assert IdsHTML(gs) == IdLineOf(gs[0]) + IdsHTML(gs[1..]);
    }
  }

  /** `Readonly` and `PasswordProtected` leave the page as it was. */
  lemma InputTypeInvisible(form: Form, i: nat)
    requires i < |form.fields|
    ensures FormAsHTML(form.(fields := form.fields[i := Readonly(form.fields[i])])) == FormAsHTML(form)
    ensures FormAsHTML(form.(fields := form.fields[i := PasswordProtected(form.fields[i])])) == FormAsHTML(form)
  {
    TypeNotPrinted(form.fields, form.fields[i := Readonly(form.fields[i])]);
    TypeNotPrinted(form.fields, form.fields[i := PasswordProtected(form.fields[i])]);
  }

  // Reading `e_fields` back.

  function IdsOf(fs: seq<Field>): (ids: seq<string>)
    ensures |ids| == |fs| && forall i :: 0 <= i < |fs| ==> ids[i] == fs[i].id
  {
    if |fs| == 0 then [] else [fs[0].id] + IdsOf(fs[1..])
  }

  lemma IdLineNonEmpty(id: string)
    ensures |IdLine(id)| >= |IdIndent| > 0
  {
  }

  /** The keys of the `e_fields` entries, read one line at a time. */
  function ParseIds(s: string): Option<seq<string>>
    decreases |s|
  {
    if |s| == 0 then Some([])
    else if !(IdIndent <= s) then None
    else
      var id := UpTo(s[|IdIndent|..], ':');
      IdLineNonEmpty(id);
      if !(IdLine(id) <= s) then None
      else match ParseIds(s[|IdLine(id)|..])
        case None => None
        case Some(ids) => Some([id] + ids)
  }

  lemma IdMiddleStartsWithColon()
    ensures |IdMiddle| > 0 && IdMiddle[0] == ':'
  {
  }

  lemma LineReadBack(ind: string, id: string, mid: string, close: string, rest: string)
    requires ':' !in id && |mid| > 0 && mid[0] == ':'
    ensures ind <= ind + id + mid + id + close + rest
    ensures UpTo((ind + id + mid + id + close + rest)[|ind|..], ':') == id
    ensures ind + id + mid + id + close <= ind + id + mid + id + close + rest
    ensures (ind + id + mid + id + close + rest)[|ind + id + mid + id + close|..] == rest
  {
    assert (ind + id + mid + id + close + rest)[|ind|..] == id + (mid + id + close + rest);
    UpToOf(id, ':', mid + id + close + rest);
  }

  /** `e_fields` names every field once, in field order, as long as no id contains `:`. */
  lemma {:induction false} IdsRoundTrip(fs: seq<Field>)
    requires forall i :: 0 <= i < |fs| ==> ':' !in fs[i].id
    ensures ParseIds(IdsHTML(fs)) == Some(IdsOf(fs))
    decreases |fs|
  {
    if |fs| > 0 {
      var id := fs[0].id;
      var rest := IdsHTML(fs[1..]);
      assert IdsHTML(fs) == IdLine(id) + rest;
      IdMiddleStartsWithColon();
      IdLineNonEmpty(id);
      LineReadBack(IdIndent, id, IdMiddle, IdClose, rest);
      IdsRoundTrip(fs[1..]);
    }
  }
}
