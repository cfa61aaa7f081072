/**
 * The administrators' text of a completed questionnaire (`formatAdminText`,
 * index.js:144-169): nine escaped answers in question order, grouped by
 * rules, then a link to the submitter and their username.
 */
module AdminText {
  import opened Optional
  import opened Strings
  import opened Html
  import opened Schema

  /** The parts of `msg.from` the formatter reads; a field Telegram leaves out is "" (id 0). */
  datatype Sender = Sender(id: int, firstName: string, lastName: string, username: string)

  /** A session's collected answers, by step key. */
  type Answers = map<Key, string>

  /** An answer as the template reads it: a missing key is `undefined`, which escapeHtml's default turns into "". */
  function Answer(d: Answers, key: Key): string {
    if key in d then d[key] else ""
  }

  /** `@username`, or `-` when the sender has none. */
  function Username(from: Option<Sender>): string {
    if from.Some? && from.value.username != "" then "@" + from.value.username else "-"
  }

  /** `[first_name, last_name].filter(Boolean).join(" ")`. */
  function DisplayName(from: Option<Sender>): string {
    if from.None? then ""
    else if from.value.firstName != "" && from.value.lastName != "" then from.value.firstName + " " + from.value.lastName
    else from.value.firstName + from.value.lastName
  }

  const Placeholder: string := "Foydalanuvchi"

  /** A deep link to the submitter when their id is known (non-zero), else the placeholder. */
  function UserLink(from: Option<Sender>): string {
    if from.Some? && from.value.id != 0 then
      var name := DisplayName(from);
      "<a href=\"tg://user?id=" + IntToDecimal(from.value.id) + "\">"
        + EscapeHtml(if name != "" then name else Placeholder) + "</a>"
    else Placeholder
  }

  /** The footer's fallbacks: `-` without a username, the placeholder without a name or without an id. */
  lemma SenderFallbacks(from: Option<Sender>)
    ensures Username(from) == "-" <==> from.None? || from.value.username == ""
    ensures DisplayName(from) == "" <==> from.None? || (from.value.firstName == "" && from.value.lastName == "")
    ensures !HasLink(from) ==> UserLink(from) == Placeholder
    ensures HasLink(from) && DisplayName(from) == "" ==>
      UserLink(from) == "<a href=\"tg://user?id=" + IntToDecimal(from.value.id) + "\">" + Placeholder + "</a>"
  {
    if from.Some? && from.value.username != "" {
      assert Username(from)[0] == '@';
    }
    if from.Some? && from.value.firstName != "" && from.value.lastName != "" {
      assert |DisplayName(from)| > 0;
    }
    var p := Placeholder;
    assert '&' !in p && '<' !in p && '>' !in p;
  }

  const Rule: string := "━━━━━━━━━━━━━━━━━━\n"

  /** An icon and a bold caption, as every line of the template starts. */
  function Caption(icon: string, caption: string): string {
    icon + " <b>" + caption + "</b> "
  }

  /** One line of the template: an icon, a bold caption and an escaped value. */
  function Row(icon: string, caption: string, value: string): string {
    Caption(icon, caption) + EscapeHtml(value) + "\n"
  }

  /** The closing lines: who sent the questionnaire. */
  function Footer(from: Option<Sender>): string {
    FooterLines(UserLink(from), EscapeHtml(Username(from)))
  }

  /** The two closing lines, around the link and the escaped username. */
  function FooterLines(link: string, name: string): string {
    Caption("👤", "Telegram:") + link + "\n" + Caption("🔖", "Username:") + name
  }

  /** A captioned answer: the line's icon, its bold caption and the key of the answer it shows. */
  datatype Field = Field(icon: string, caption: string, key: Key)

  /** A line of the template's body: a captioned answer, or a rule between groups. */
  datatype Line = Entry(field: Field) | Divider

  /** The first group of the template: who the applicant is and how to reach them. */
  const Personal: seq<Line> := [
    Entry(Field("👤", "F.I.Sh:", FullName)),
    Entry(Field("🎂", "Tug‘ilgan sana:", BirthDate)),
    Entry(Field("📞", "Telefon:", Phone)),
    Entry(Field("📍", "Manzil:", Address))
  ]

  /** The second group: their schooling. */
  const Studies: seq<Line> := [
    Entry(Field("🎓", "Ma’lumoti:", Education)),
    Entry(Field("🏛", "Universitet:", University))
  ]

  /** The third group: their work and skills. */
  const Career: seq<Line> := [
    Entry(Field("💼", "Ish tajribasi:", Experience)),
    Entry(Field("🌍", "Chet tillari:", Languages)),
    Entry(Field("🏅", "Sertifikatlar:", Certificates))
  ]

  /** The body of the template, line by line: each group opened by a rule, the last one closed by one. */
  const Layout: seq<Line> := [Divider] + Personal + [Divider] + Studies + [Divider] + Career + [Divider]

  function LineText(line: Line, d: Answers): string {
    match line
    case Divider => Rule
    case Entry(Field(icon, caption, key)) => Row(icon, caption, Answer(d, key))
  }

  /** The lines of a layout, one after another. */
  function Render(lines: seq<Line>, d: Answers): string {
    if lines == [] then "" else LineText(lines[0], d) + Render(lines[1..], d)
  }

  const Heading: string := "📥 <b>Yangi anketa</b>\n"

  /** The message the administrators receive for a completed questionnaire. */
  function FormatAdminText(d: Answers, from: Option<Sender>): string {
    Heading + Render(Layout, d) + Footer(from)
  }

  // ---------------------------------------------------------------- reading the text back

  /** The captioned lines of a layout, in order. */
  function Fields(lines: seq<Line>): seq<Field> {
    if lines == [] then []
    else (if lines[0].Entry? then [lines[0].field] else []) + Fields(lines[1..])
  }

  /** The lines after the j-th captioned line. */
  function After(lines: seq<Line>, j: nat): (r: seq<Line>)
    requires j < |Fields(lines)|
    ensures |r| < |lines|
  {
    if lines[0].Entry? then (if j == 0 then lines[1..] else After(lines[1..], j - 1))
    else After(lines[1..], j)
  }

  /** The text of a layout before its first tag: its leading rules, then the first caption's icon. */
  function Lead(lines: seq<Line>): string {
    if lines == [] then ""
    else match lines[0]
      case Divider => Rule + Lead(lines[1..])
      case Entry(f) => f.icon + " "
  }

  /** The icons and captions of a layout hold no `<`, so its only tags are the template's. */
  predicate Plain(lines: seq<Line>) {
    forall i :: 0 <= i < |lines| && lines[i].Entry? ==> '<' !in lines[i].field.icon && '<' !in lines[i].field.caption
  }

  /** The icon that opens the lines after the body. */
  const FooterIcon: string := "👤"

  /**
   * What follows the k-th answer up to the next tag: its line break, any
   * rules, and the next line's icon.
   */
  function Trailer(lines: seq<Line>, k: nat): string
    requires k < |Fields(lines)|
  {
    "\n" + Lead(After(lines, k)) + (if k + 1 == |Fields(lines)| then FooterIcon + " " else "")
  }

  /** The middle of `piece`, when it starts with `pre` and ends with `post`. */
  function Between(piece: string, pre: string, post: string): (r: Option<string>)
    ensures r.Some? ==> pre + r.value + post == piece
  {
    if |pre| + |post| <= |piece| && piece[..|pre|] == pre && piece[|piece| - |post|..] == post
    then
      assert piece == piece[..|pre|] + piece[|pre|..|piece| - |post|] + piece[|piece| - |post|..];
      Some(piece[|pre|..|piece| - |post|])
    else None
  }

  /**
   * How an administrator reads the k-th answer back out of an admin text: the
   * piece after the k-th caption's tag, between its closing tag and the
   * next tag, less the trailer, with the entities read back.
   */
  function ReadAnswer(text: string, k: nat): Option<string>
    requires k < |AnswerKeys|
  {
    LayoutFields();
    var parts := Split(text, '<');
    if 2 * k + 4 < |parts| && parts[2 * k + 3] == "b>" + Fields(Layout)[k].caption then
      match Between(parts[2 * k + 4], "/b> ", Trailer(Layout, k))
      case Some(escaped) => Some(Unescape(escaped))
      case None => None
    else None
  }

  /** Whether the admin text links to the submitter. */
  predicate HasLink(from: Option<Sender>) {
    from.Some? && from.value.id != 0
  }

  lemma {:induction false} FieldsAppend(a: seq<Line>, b: seq<Line>)
    ensures Fields(a + b) == Fields(a) + Fields(b)
  {
    if a != [] {
      assert (a + b)[0] == a[0] && (a + b)[1..] == a[1..] + b;
      FieldsAppend(a[1..], b);
      var h: seq<Field> := if a[0].Entry? then [a[0].field] else [];
      assert Fields(a + b) == h + (Fields(a[1..]) + Fields(b));
    } else {
      assert a + b == b;
    }
  }

  lemma {:induction false} EntryFields(g: seq<Line>)
    requires forall i :: 0 <= i < |g| ==> g[i].Entry?
    ensures |Fields(g)| == |g| && forall i :: 0 <= i < |g| ==> Fields(g)[i] == g[i].field
  {
    if g != [] {
      EntryFields(g[1..]);
    }
  }

  lemma PlainAppend(a: seq<Line>, b: seq<Line>)
    requires Plain(a) && Plain(b)
    ensures Plain(a + b)
  {
    forall i | 0 <= i < |a + b| && (a + b)[i].Entry?
      ensures '<' !in (a + b)[i].field.icon && '<' !in (a + b)[i].field.caption
    {
      if i >= |a| {
        assert (a + b)[i] == b[i - |a|];
      }
    }
  }

  lemma FieldsOfGroups(p: seq<Line>, e: seq<Line>, c: seq<Line>)
    ensures Fields([Divider] + p + [Divider] + e + [Divider] + c + [Divider]) == Fields(p) + Fields(e) + Fields(c)
  {
    var dv: seq<Line> := [Divider];
    assert Fields(dv) == [];
    var s1 := dv + p;
    FieldsAppend(dv, p);
    var s2 := s1 + dv;
    FieldsAppend(s1, dv);
    assert Fields(s2) == Fields(p);
    var s3 := s2 + e;
    FieldsAppend(s2, e);
    var s4 := s3 + dv;
    FieldsAppend(s3, dv);
    assert Fields(s4) == Fields(p) + Fields(e);
    var s5 := s4 + c;
    FieldsAppend(s4, c);
    var s6 := s5 + dv;
    FieldsAppend(s5, dv);
    assert Fields(s6) == Fields(p) + Fields(e) + Fields(c);
  }

  lemma PlainGroups(p: seq<Line>, e: seq<Line>, c: seq<Line>)
    requires Plain(p) && Plain(e) && Plain(c)
    ensures Plain([Divider] + p + [Divider] + e + [Divider] + c + [Divider])
  {
    var dv: seq<Line> := [Divider];
    PlainAppend(dv, p);
    PlainAppend(dv + p, dv);
    PlainAppend(dv + p + dv, e);
    PlainAppend(dv + p + dv + e, dv);
    PlainAppend(dv + p + dv + e + dv, c);
    PlainAppend(dv + p + dv + e + dv + c, dv);
  }

  /** The layout's captioned lines are its three groups, in order. */
  lemma LayoutFieldList()
    ensures Fields(Layout) == Fields(Personal) + Fields(Studies) + Fields(Career)
  {
    FieldsOfGroups(Personal, Studies, Career);
  }

  /** No icon or caption of the layout holds a tag. */
  lemma LayoutPlain()
    ensures Plain(Layout)
  {
    PersonalPlain();
    StudiesPlain();
    CareerPlain();
    PlainGroups(Personal, Studies, Career);
  }

  lemma PersonalPlain()
    ensures Plain(Personal)
  {
  }

  lemma StudiesPlain()
    ensures Plain(Studies)
  {
  }

  lemma CareerPlain()
    ensures Plain(Career)
  {
  }

  /** The layout holds the nine answers, in question order. */
  lemma LayoutFields()
    ensures |Fields(Layout)| == |AnswerKeys|
    ensures forall k :: 0 <= k < |AnswerKeys| ==> Fields(Layout)[k].key == AnswerKeys[k]
  {
    LayoutFieldList();
    EntryFields(Personal);
    EntryFields(Studies);
    EntryFields(Career);
    var f := Fields(Personal) + Fields(Studies) + Fields(Career);
    forall k | 0 <= k < |AnswerKeys|
      ensures f[k].key == AnswerKeys[k]
    {
      if k < 4 {
        assert f[k] == Personal[k].field;
      } else if k < 6 {
        assert f[k] == Studies[k - 4].field;
      } else {
        assert f[k] == Career[k - 6].field;
      }
    }
  }

  /**
   * Every answer reaches the administrators intact and under its own caption,
   * in question order, whatever characters the submitter typed.
   */
  lemma AdminTextRoundTrip(d: Answers, from: Option<Sender>)
    ensures forall k :: 0 <= k < |AnswerKeys| ==> ReadAnswer(FormatAdminText(d, from), k) == Some(Answer(d, AnswerKeys[k]))
  {
    LayoutFields();
    AdminTextPieces(d, from);
    forall k | 0 <= k < |AnswerKeys|
      ensures ReadAnswer(FormatAdminText(d, from), k) == Some(Answer(d, AnswerKeys[k]))
    {
      var v := Answer(d, Fields(Layout)[k].key);
      ReadPiece(EscapeHtml(v), Trailer(Layout, k));
      UnescapeEscapeHtml(v);
    }
  }

  /**
   * The submitter cannot add or remove markup: the number of `<` in the
   * admin text is fixed by the template (26 with the link to the
   * submitter, 24 without), whatever the answers and names hold.
   */
  lemma AdminTextTagCount(d: Answers, from: Option<Sender>)
    ensures Count(FormatAdminText(d, from), '<') == if HasLink(from) then 26 else 24
  {
    AdminTextPieces(d, from);
    SplitCount(FormatAdminText(d, from), '<');
  }

  // ---------------------------------------------------------------- how the template splits at `<`

  lemma ReadPiece(e: string, post: string)
    ensures Between("/b> " + e + post, "/b> ", post) == Some(e)
  {
    var piece := "/b> " + e + post;
    assert piece[..4] == "/b> " && piece[|piece| - |post|..] == post && piece[4..|piece| - |post|] == e;
  }

  /** The piece a template line leaves open: its closing tag, its escaped value and its line break. */
  function ValueOpen(value: string): string {
    "/b> " + EscapeHtml(value) + "\n"
  }

  /** Where the two tags of a template line sit. */
  lemma RowTags(icon: string, caption: string, value: string)
    ensures Row(icon, caption, value) == (icon + " ") + "<" + ("b>" + caption) + "<" + ValueOpen(value)
  {
    CaptionTags(icon, caption);
    TailRegroup((icon + " ") + "<" + ("b>" + caption) + "<", "/b> ", EscapeHtml(value), "\n");
  }

  lemma TailRegroup(a: string, b: string, c: string, e: string)
    ensures a + b + c + e == a + (b + c + e)
  {
  }

  lemma RuleHasNoTag()
    ensures '<' !in Rule
  {
  }

  /**
   * The pieces `p` a layout splits into at `<`: before the first tag its
   * lead, then for each captioned line its caption, and its value's piece
   * running up to the next line's icon.
   */
  ghost predicate LayoutPieces(lines: seq<Line>, d: Answers, p: seq<string>) {
    var f := Fields(lines);
    && |p| == 2 * |f| + 1
    && p[0] == Lead(lines)
    && forall j :: 0 <= j < |f| ==>
         p[2 * j + 1] == "b>" + f[j].caption
         && p[2 * j + 2] == ValueOpen(Answer(d, f[j].key)) + Lead(After(lines, j))
  }

  lemma DividerPieces(lines: seq<Line>, d: Answers, q: seq<string>)
    requires lines != [] && lines[0].Divider?
    requires LayoutPieces(lines[1..], d, q)
    ensures LayoutPieces(lines, d, [Rule + q[0]] + q[1..])
  {
    var rest := lines[1..];
    assert Fields(lines) == Fields(rest);
    var f := Fields(lines);
    forall j | 0 <= j < |f|
      ensures After(lines, j) == After(rest, j)
    {
    }
  }

  lemma FieldPieces(lines: seq<Line>, d: Answers, q: seq<string>)
    requires lines != [] && lines[0].Entry?
    requires LayoutPieces(lines[1..], d, q)
    ensures LayoutPieces(lines, d, [lines[0].field.icon + " ", "b>" + lines[0].field.caption, ValueOpen(Answer(d, lines[0].field.key)) + q[0]] + q[1..])
  {
    var rest := lines[1..];
    var f := Fields(lines);
    assert f == [lines[0].field] + Fields(rest);
    var p := [lines[0].field.icon + " ", "b>" + lines[0].field.caption, ValueOpen(Answer(d, lines[0].field.key)) + q[0]] + q[1..];
    forall j | 0 <= j < |f|
      ensures p[2 * j + 1] == "b>" + f[j].caption
      ensures p[2 * j + 2] == ValueOpen(Answer(d, f[j].key)) + Lead(After(lines, j))
    {
      if j > 0 {
        assert f[j] == Fields(rest)[j - 1];
        assert After(lines, j) == After(rest, j - 1);
      }
    }
  }

  /** How a layout whose icons and captions hold no `<` splits at `<`. */
  lemma {:induction false} RenderPieces(lines: seq<Line>, d: Answers)
    requires Plain(lines)
    ensures LayoutPieces(lines, d, Split(Render(lines, d), '<'))
  {
    if lines == [] {
      SplitOne("", '<');
    } else {
      PlainTail(lines);
      RenderPieces(lines[1..], d);
      if lines[0].Divider? {
        DividerStep(lines, d);
      } else {
        EntryStep(lines, d);
      }
    }
  }

  lemma PlainTail(lines: seq<Line>)
    requires lines != [] && Plain(lines)
    ensures Plain(lines[1..])
  {
    var rest := lines[1..];
    forall i | 0 <= i < |rest| && rest[i].Entry?
      ensures '<' !in rest[i].field.icon && '<' !in rest[i].field.caption
    {
      assert rest[i] == lines[i + 1];
    }
  }

  lemma DividerStep(lines: seq<Line>, d: Answers)
    requires lines != [] && lines[0].Divider?
    requires LayoutPieces(lines[1..], d, Split(Render(lines[1..], d), '<'))
    ensures LayoutPieces(lines, d, Split(Render(lines, d), '<'))
  {
    var r := Render(lines[1..], d);
    assert Render(lines, d) == Rule + r;
    RuleHasNoTag();
    SplitPrefix(Rule, r, '<');
    DividerPieces(lines, d, Split(r, '<'));
  }

  lemma EntryStep(lines: seq<Line>, d: Answers)
    requires lines != [] && lines[0].Entry? && Plain(lines)
    requires LayoutPieces(lines[1..], d, Split(Render(lines[1..], d), '<'))
    ensures LayoutPieces(lines, d, Split(Render(lines, d), '<'))
  {
    var r := Render(lines[1..], d);
    var q := Split(r, '<');
    var f := lines[0].field;
    var v := Answer(d, f.key);
    var t := Row(f.icon, f.caption, v);
    assert Render(lines, d) == t + r;
    SplitAppend(t, r, '<');
    var lt := [f.icon + " ", "b>" + f.caption, ValueOpen(v)];
    assert '<' !in f.icon && '<' !in f.caption;
    RowSplit(f.icon, f.caption, v);
    GlueThree(lt[0], lt[1], lt[2], q);
    FieldPieces(lines, d, q);
  }

  lemma GlueThree(a: string, b: string, c: string, q: seq<string>)
    requires |q| >= 1
    ensures Glue([a, b, c], q) == [a, b, c + q[0]] + q[1..]
  {
  }

  /** A template line whose icon and caption hold no `<` splits into three pieces. */
  lemma RowSplit(icon: string, caption: string, value: string)
    requires '<' !in icon && '<' !in caption
    ensures Split(Row(icon, caption, value), '<') == [icon + " ", "b>" + caption, ValueOpen(value)]
  {
    RowTags(icon, caption, value);
    SplitThree(icon + " ", "b>" + caption, ValueOpen(value), '<');
  }

  lemma HeadingPieces()
    ensures Split(Heading, '<') == ["📥 ", "b>Yangi anketa", "/b>\n"]
  {
    assert Heading == "📥 " + "<" + "b>Yangi anketa" + "<" + "/b>\n";
    SplitThree("📥 ", "b>Yangi anketa", "/b>\n", '<');
  }

  /** The first piece survives gluing when there is more than one. */
  lemma GlueHead(p: seq<string>, q: seq<string>)
    requires |p| >= 2 && |q| >= 1
    ensures Glue(p, q)[0] == p[0]
  {
  }

  /** Where the two tags of a caption sit. */
  lemma CaptionTags(icon: string, caption: string)
    ensures Caption(icon, caption) == (icon + " ") + "<" + ("b>" + caption) + "<" + "/b> "
  {
    assert " <b>" == " " + "<" + "b>";
    assert "</b> " == "<" + "/b> ";
  }

  /** A caption whose icon and text hold no `<` splits into three pieces. */
  lemma CaptionSplit(icon: string, caption: string)
    requires '<' !in icon && '<' !in caption
    ensures Split(Caption(icon, caption), '<') == [icon + " ", "b>" + caption, "/b> "]
  {
    CaptionTags(icon, caption);
    SplitThree(icon + " ", "b>" + caption, "/b> ", '<');
  }

  /** Appending text splits into as many more pieces as it holds `<`; the first piece stays. */
  lemma AppendPieces(x: string, y: string)
    requires |Split(x, '<')| >= 2
    ensures |Split(x + y, '<')| == |Split(x, '<')| + |Split(y, '<')| - 1
    ensures Split(x + y, '<')[0] == Split(x, '<')[0]
  {
    SplitAppend(x, y, '<');
    GlueHead(Split(x, '<'), Split(y, '<'));
  }

  /** Where the two tags of a link sit. */
  lemma LinkTags(id: string, name: string)
    ensures "<a href=\"tg://user?id=" + id + "\">" + name + "</a>"
         == "" + "<" + ("a href=\"tg://user?id=" + id + "\">" + name) + "<" + "/a>"
  {
    assert "<a href=\"tg://user?id=" == "" + "<" + "a href=\"tg://user?id=";
    assert "</a>" == "<" + "/a>";
  }

  /** A link whose id and name hold no `<` splits into three pieces. */
  lemma LinkPieces(id: string, name: string)
    requires '<' !in id && '<' !in name
    ensures |Split("<a href=\"tg://user?id=" + id + "\">" + name + "</a>", '<')| == 3
  {
    LinkTags(id, name);
    SplitThree("", "a href=\"tg://user?id=" + id + "\">" + name, "/a>", '<');
  }

  /** The link to the submitter holds two tags, the placeholder none. */
  lemma LinkSplit(from: Option<Sender>)
    ensures |Split(UserLink(from), '<')| == if HasLink(from) then 3 else 1
  {
    if HasLink(from) {
      var name := DisplayName(from);
      LinkPieces(IntToDecimal(from.value.id), EscapeHtml(if name != "" then name else Placeholder));
    } else {
      SplitOne(Placeholder, '<');
    }
  }

  /** Two captions around two tags of a link, then a name without `<`. */
  lemma FooterSplit(link: string, name: string)
    requires '<' !in name
    ensures var p := Split(FooterLines(link, name), '<');
      |p| == |Split(link, '<')| + 4 && p[0] == "👤 "
  {
    var first := Caption("👤", "Telegram:");
    var second := Caption("🔖", "Username:");
    CaptionSplit("👤", "Telegram:");
    CaptionSplit("🔖", "Username:");
    AppendPieces(first, link);
    SplitOne("\n", '<');
    AppendPieces(first + link, "\n");
    AppendPieces(first + link + "\n", second);
    SplitOne(name, '<');
    AppendPieces(first + link + "\n" + second, name);
  }

  /** The pieces of the closing lines: how many there are, and that the first is the icon of the Telegram line. */
  lemma FooterPieces(from: Option<Sender>)
    ensures var p := Split(Footer(from), '<');
      |p| == (if HasLink(from) then 7 else 5) && p[0] == "👤 "
  {
    LinkSplit(from);
    FooterSplit(UserLink(from), EscapeHtml(Username(from)));
  }

  /** The pieces of the whole admin text, after a heading that splits like the template's own, for a body of nine answers. */
  lemma TextPieces(t0: string, lines: seq<Line>, d: Answers, from: Option<Sender>)
    requires Split(t0, '<') == ["📥 ", "b>Yangi anketa", "/b>\n"]
    requires |Fields(lines)| == 9 && Plain(lines)
    ensures var p := Split(t0 + Render(lines, d) + Footer(from), '<');
      && |p| == (if HasLink(from) then 27 else 25)
      && forall k :: 0 <= k < 9 ==>
           p[2 * k + 3] == "b>" + Fields(lines)[k].caption
           && p[2 * k + 4] == "/b> " + EscapeHtml(Answer(d, Fields(lines)[k].key)) + Trailer(lines, k)
  {
    RenderPieces(lines, d);
    FooterPieces(from);
    var r := Split(Render(lines, d), '<');
    var f := Split(Footer(from), '<');
    SplitAppend(t0, Render(lines, d), '<');
    SplitAppend(t0 + Render(lines, d), Footer(from), '<');
    GluedPieces(Split(t0, '<'), r, f);
    var p := Glue(Glue(Split(t0, '<'), r), f);
    forall k | 0 <= k < 9
      ensures p[2 * k + 3] == "b>" + Fields(lines)[k].caption
      ensures p[2 * k + 4] == "/b> " + EscapeHtml(Answer(d, Fields(lines)[k].key)) + Trailer(lines, k)
    {
      BodyPiece(lines, d, r, f[0], p, k);
    }
  }

  /** The k-th answer's pieces of the whole text, from the body's pieces and the footer's first. */
  lemma BodyPiece(lines: seq<Line>, d: Answers, r: seq<string>, f0: string, p: seq<string>, k: nat)
    requires |Fields(lines)| == 9 && LayoutPieces(lines, d, r) && k < 9
    requires f0 == FooterIcon + " " && |p| >= 21
    requires forall k :: 0 <= k < 9 ==> p[2 * k + 3] == r[2 * k + 1]
    requires forall k :: 0 <= k < 8 ==> p[2 * k + 4] == r[2 * k + 2]
    requires p[20] == r[18] + f0
    ensures p[2 * k + 3] == "b>" + Fields(lines)[k].caption
    ensures p[2 * k + 4] == "/b> " + EscapeHtml(Answer(d, Fields(lines)[k].key)) + Trailer(lines, k)
  {
    var v := "/b> " + EscapeHtml(Answer(d, Fields(lines)[k].key));
    var lead := Lead(After(lines, k));
    assert r[2 * k + 1] == "b>" + Fields(lines)[k].caption;
    assert r[2 * k + 2] == ValueOpen(Answer(d, Fields(lines)[k].key)) + lead;
    if k < 8 {
      assert Trailer(lines, k) == "\n" + lead + "";
      PieceAssoc(v, lead, "");
    } else {
      assert Trailer(lines, k) == "\n" + lead + (FooterIcon + " ");
      PieceAssoc(v, lead, FooterIcon + " ");
    }
  }

  lemma PieceAssoc(v: string, lead: string, t: string)
    ensures v + "\n" + lead + t == v + ("\n" + lead + t)
  {
  }

  /** Where the body's pieces land once glued between the heading's and the footer's. */
  lemma GluedPieces(h: seq<string>, r: seq<string>, f: seq<string>)
    requires |h| == 3 && |r| == 19 && |f| >= 1
    ensures var p := Glue(Glue(h, r), f);
      && |p| == 20 + |f|
      && (forall k :: 0 <= k < 9 ==> p[2 * k + 3] == r[2 * k + 1])
      && (forall k :: 0 <= k < 8 ==> p[2 * k + 4] == r[2 * k + 2])
      && p[20] == r[18] + f[0]
  {
    var hr := Glue(h, r);
    assert forall i :: 1 <= i < 19 ==> hr[2 + i] == r[i];
  }

  /** The pieces of the whole admin text, in the terms the reader uses. */
  lemma AdminTextPieces(d: Answers, from: Option<Sender>)
    ensures |Fields(Layout)| == 9
    ensures var p := Split(FormatAdminText(d, from), '<');
      && |p| == (if HasLink(from) then 27 else 25)
      && forall k :: 0 <= k < 9 ==>
           p[2 * k + 3] == "b>" + Fields(Layout)[k].caption
           && p[2 * k + 4] == "/b> " + EscapeHtml(Answer(d, Fields(Layout)[k].key)) + Trailer(Layout, k)
  {
    LayoutFields();
    LayoutPlain();
    HeadingPieces();
    TextPieces(Heading, Layout, d, from);
  }
}
