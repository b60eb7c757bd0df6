/** Parsing undoes rendering. */
module IniRoundTrip {
  import opened IniSpec
  import opened IniProperties

  /** A section header, a pair, a pair with a comment behind it, a comment, an empty line, one more value for
      the pair above, and two kinds of lines that are none of these. */
  datatype Item =
    | Section(name: string)
    | Pair(name: string, value: string)
    | Noted(name: string, value: string, note: string)
    | Remark(text: string)
    | Empty
    | More(value: string)
    | Junk(text: string)
    | Open(text: string)

  /** No character of `chars`, no end of line or string, and no `;` that white space would turn
      into a comment. */
  predicate Clean(s: string, chars: string) {
    && (forall i | 0 <= i < |s| :: s[i] !in chars && s[i] != '\n' && s[i] != '\0')
    && (forall i | 0 < i < |s| :: !(IsSpace(s[i - 1]) && s[i] == ';'))
  }

  predicate OneLine(s: string) { '\n' !in s && '\0' !in s }

  predicate CanonicalPair(name: string, value: string) {
    && Clean(name, "=:") && Trimmed(name) && (name == "" || name[0] !in ";#[")
    && Clean(value, "") && Trimmed(value)
  }

  /** White space, a semicolon, and anything. */
  predicate IsNote(note: string) { |note| >= 2 && IsSpace(note[0]) && note[1] == ';' && OneLine(note) }

  predicate CanonicalItem(item: Item) {
    match item
    case Section(name) => Clean(name, "]") && |name| < MAX_SECTION
    case Pair(name, value) => CanonicalPair(name, value) && |Render(item)| < MAX_LINE
    case Noted(name, value, note) => CanonicalPair(name, value) && IsNote(note) && |Render(item)| < MAX_LINE
    case Remark(text) => text != "" && text[0] in ";#" && Trimmed(text) && OneLine(text) && |Render(item)| < MAX_LINE
    case Empty => true
    case More(value) =>
      value != "" && value[0] !in ";#" && Trimmed(value) && OneLine(value) && |Render(item)| < MAX_LINE
    case Junk(text) =>
      && text != "" && text[0] !in ";#[" && Clean(text, "=:") && Trimmed(text) && |Render(item)| < MAX_LINE
    case Open(text) => Clean(text, "]") && NoTrailingSpace(text) && |Render(item)| < MAX_LINE
  }

  function Render(item: Item): string {
    match item
    case Section(name) => "[" + name + "]\n"
    case Pair(name, value) => name + "=" + value + "\n"
    case Noted(name, value, note) => name + "=" + value + note + "\n"
    case Remark(text) => text + "\n"
    case Empty => "\n"
    case More(value) => " " + value + "\n"
    case Junk(text) => text + "\n"
    case Open(text) => "[" + text + "\n"
  }

  function RenderAll(doc: seq<Item>): string {
    if doc == [] then "" else Render(doc[0]) + RenderAll(doc[1..])
  }

  /** The name a further value would go to. */
  function NameAfter(prev: string, item: Item): string {
    match item
    case Section(_) => ""
    case Pair(name, _) => name
    case Noted(name, _, _) => name
    case _ => prev
  }

  /** Further values only follow a pair with a name; `prev` is the one in front of the document. */
  predicate Placed(prev: string, doc: seq<Item>)
    decreases |doc|
  {
    doc == [] || ((doc[0].More? ==> prev != "") && Placed(NameAfter(prev, doc[0]), doc[1..]))
  }

  /** Canonical items in their places, and no byte order mark in front. */
  predicate Canonical(doc: seq<Item>) {
    && (forall i | 0 <= i < |doc| :: CanonicalItem(doc[i])) && Placed("", doc)
    && (doc != [] ==> !(BOM <= Render(doc[0])))
  }

  function SectionAfter(section: string, item: Item): string { if item.Section? then item.name else section }

  /** The call one item stands for, if any. */
  function EventOf(section: string, prev: string, item: Item): seq<Call> {
    match item
    case Pair(name, value) => [Call(section, name, value)]
    case Noted(name, value, _) => [Call(section, name, value)]
    case More(value) => [Call(section, Truncated(prev, MAX_NAME), value)]
    case _ => []
  }

  /** The calls the document stands for, when `section` and the name `prev` are current at its start. */
  function Events(section: string, prev: string, doc: seq<Item>): seq<Call>
    decreases |doc|
  {
    if doc == [] then []
    else EventOf(section, prev, doc[0]) + Events(SectionAfter(section, doc[0]), NameAfter(prev, doc[0]), doc[1..])
  }

  predicate IsBad(item: Item) { item.Junk? || item.Open? }

  /** The number of the first line that is none of the others, counting on from `lineno`, or 0. */
  function FirstBadItem(doc: seq<Item>, lineno: nat): nat
    decreases |doc|
  {
    if doc == [] then 0 else if IsBad(doc[0]) then lineno + 1 else FirstBadItem(doc[1..], lineno + 1)
  }

  function Lines(doc: seq<Item>): seq<string> {
    if doc == [] then [] else [Render(doc[0])] + Lines(doc[1..])
  }

  // ----- Chunks of a rendered document -----

  lemma {:induction false} ChunkOfLine(line: string, rest: string, n: nat)
    requires '\n' !in line && |line| < n
    ensures ChunkLength(line + "\n" + rest, n) == |line| + 1
  {
    var text := line + "\n" + rest;
    if line != "" {
      assert text[1..] == line[1..] + "\n" + rest;
      assert text[0] == line[0];
      ChunkOfLine(line[1..], rest, n - 1);
    }
  }

  lemma RenderIsLine(item: Item)
    requires CanonicalItem(item)
    ensures var r := Render(item); r != "" && |r| < MAX_LINE && r == r[..|r| - 1] + "\n" && '\n' !in r[..|r| - 1]
  {
    var line := LineOf(item);
    assert Render(item) == line + "\n" && Render(item)[..|line|] == line;
  }

  /** The line without its newline. */
  function LineOf(item: Item): string {
    match item
    case Section(name) => "[" + name + "]"
    case Pair(name, value) => name + "=" + value
    case Noted(name, value, note) => name + "=" + value + note
    case Remark(text) => text
    case Empty => ""
    case More(value) => " " + value
    case Junk(text) => text
    case Open(text) => "[" + text
  }

  lemma {:induction false} ChunksOfDocument(doc: seq<Item>)
    requires forall i | 0 <= i < |doc| :: CanonicalItem(doc[i])
    ensures Chunks(RenderAll(doc)) == Lines(doc)
    decreases |doc|
  {
    if doc != [] {
      var r := Render(doc[0]);
      var rest := RenderAll(doc[1..]);
      RenderIsLine(doc[0]);
      ChunkOfLine(r[..|r| - 1], rest, MAX_LINE - 1);
      assert RenderAll(doc) == r + rest == r[..|r| - 1] + "\n" + rest;
      assert RenderAll(doc)[..|r|] == r && RenderAll(doc)[|r|..] == rest;
      ChunksOfDocument(doc[1..]);
    }
  }

  // ----- One line -----

  /** In a clean string followed by nothing or by a wanted character, the search stops at the end. */
  lemma {:induction false} FindClean(s: string, rest: string, chars: string, k: nat, wasSpace: bool)
    requires Clean(s, chars) && k <= |s|
    requires wasSpace == (k > 0 && IsSpace(s[k - 1]))
    requires rest == "" || rest[0] in chars
    ensures FindFrom(s + rest, chars, k, wasSpace) == |s|
    decreases |s| - k
  {
    if k < |s| {
      assert (s + rest)[k] == s[k];
      FindClean(s, rest, chars, k + 1, IsSpace(s[k]));
    }
  }

  lemma RstripTrimmed(s: string)
    requires NoTrailingSpace(s)
    ensures Rstrip(s) == s && Rstrip(s + "\n") == s
  {
    assert (s + "\n")[..|s|] == s;
  }

  lemma LskipTrimmed(s: string)
    requires NoLeadingSpace(s)
    ensures Lskip(s) == s
  {
  }

  /** A line that is trimmed apart from its newline, and has no BOM, is its own body. */
  lemma BodyOfLine(line: string, lineno: nat)
    requires Trimmed(line) && line != ""
    requires lineno == 1 ==> !(BOM <= line + "\n")
    ensures Body(line + "\n", lineno) == line && !Indented(line + "\n", lineno)
  {
    var chunk := line + "\n";
    assert BomLength(chunk, lineno) == 0;
    assert chunk[0..] == chunk;
    RstripTrimmed(line);
    LskipTrimmed(line);
  }

  lemma SectionParts(ctx: Context, name: string)
    requires Clean(name, "]") && |name| < MAX_SECTION
    ensures SectionLine(ctx, "[" + name + "]") == LineResult(Context(name, "", ctx.calls), false)
  {
    var rest := ("[" + name + "]")[1..];
    assert rest == name + "]";
    FindClean(name, "]", "]", 0, false);
    assert rest[..|name|] == name;
  }

  lemma SectionLineParses(ctx: Context, name: string, lineno: nat, handler: Handler)
    requires Clean(name, "]") && |name| < MAX_SECTION
    ensures Line(ctx, Render(Section(name)), lineno, handler) == LineResult(Context(name, "", ctx.calls), false)
  {
    var line := "[" + name + "]";
    assert line[0] == '[' && line[|line| - 1] == ']';
    assert (line + "\n")[0] == '[' && BOM[0] != '[';
    assert Render(Section(name)) == line + "\n";
    BodyOfLine(line, lineno);
    SectionParts(ctx, name);
  }

  lemma SplitPair(name: string, rest: string)
    requires Clean(name, "=:") && Trimmed(name)
    ensures var line := name + "=" + rest;
            && Find(line, "=:") == |name| && line[|name|] == '=' && PairName(line) == name && line[|name| + 1..] == rest
  {
    var line := name + "=" + rest;
    assert line == name + ("=" + rest);
    FindClean(name, "=" + rest, "=:", 0, false);
    assert line[..|name|] == name;
    RstripTrimmed(name);
  }

  lemma PairParts(name: string, value: string)
    requires Clean(name, "=:") && Trimmed(name) && Clean(value, "") && Trimmed(value)
    ensures var line := name + "=" + value;
            && Find(line, "=:") == |name| && line[|name|] == '='
            && PairName(line) == name && PairValue(line) == value
  {
    SplitPair(name, value);
    assert value + "" == value;
    FindClean(value, "", "", 0, false);
    assert value[..|value|] == value;
    LskipTrimmed(value);
    RstripTrimmed(value);
  }

  /** A name of any length is handed over whole; only the copy kept for continuation lines is cut. */
  lemma PairLineParses(ctx: Context, name: string, value: string, lineno: nat, handler: Handler)
    requires Clean(name, "=:") && Trimmed(name) && (name == "" || name[0] !in ";#[")
    requires Clean(value, "") && Trimmed(value)
    requires lineno == 1 ==> !(BOM <= Render(Pair(name, value)))
    ensures Line(ctx, Render(Pair(name, value)), lineno, handler)
            == Report(ctx.(prevName := Truncated(name, MAX_NAME)), name, value, handler)
  {
    var line := name + "=" + value;
    assert line + "\n" == Render(Pair(name, value));
    assert line[0] == if name == "" then '=' else name[0];
    assert line[|line| - 1] == if value == "" then '=' else value[|value| - 1];
    BodyOfLine(line, lineno);
    PairParts(name, value);
  }

  // ----- Comments -----

  lemma {:induction false} RstripKeepsFront(s: string, t: string)
    requires Rstrip(t) != ""
    ensures Rstrip(s + t) == s + Rstrip(t)
    decreases |t|
  {
    var n := |t| - 1;
    if IsSpace(t[n]) {
      assert (s + t)[..|s + t| - 1] == s + t[..n];
      RstripKeepsFront(s, t[..n]);
    }
  }

  lemma {:induction false} NoteStays(note: string)
    requires |note| >= 2 && note[1] == ';'
    ensures 2 <= |Rstrip(note)| <= |note| && Rstrip(note) == note[..|Rstrip(note)|]
    decreases |note|
  {
    if IsSpace(note[|note| - 1]) { NoteStays(note[..|note| - 1]); }
  }

  /** What a note does not change: the search for the value stops at its semicolon. */
  lemma {:induction false} FindNote(value: string, note: string, k: nat, wasSpace: bool)
    requires Clean(value, "") && |note| >= 2 && IsSpace(note[0]) && note[1] == ';' && k <= |value|
    requires wasSpace == (k > 0 && IsSpace(value[k - 1]))
    ensures FindFrom(value + note, "", k, wasSpace) == |value| + 1
    decreases |value| - k
  {
    assert (value + note)[k] == if k < |value| then value[k] else note[0];
    if k < |value| {
      FindNote(value, note, k + 1, IsSpace(value[k]));
    } else {
      assert (value + note)[k + 1] == ';';
    }
  }

  lemma NotedParts(name: string, value: string, note: string)
    requires CanonicalPair(name, value) && |note| >= 2 && IsSpace(note[0]) && note[1] == ';'
    ensures var line := name + "=" + value + note;
            && Find(line, "=:") == |name| && line[|name|] == '='
            && PairName(line) == name && PairValue(line) == value
  {
    assert name + "=" + value + note == name + "=" + (value + note);
    SplitPair(name, value + note);
    NotedValue(value, note);
  }

  lemma NotedValue(value: string, note: string)
    requires Clean(value, "") && Trimmed(value) && |note| >= 2 && IsSpace(note[0]) && note[1] == ';'
    ensures var rest := value + note; Rstrip(Lskip(rest[..Find(rest, "")])) == value
  {
    FindNote(value, note, 0, false);
    ValueBeforeNote(value, note[0]);
    assert (value + note)[..|value| + 1] == value + [note[0]];
  }

  lemma ValueBeforeNote(value: string, space: char)
    requires Trimmed(value) && IsSpace(space)
    ensures Rstrip(Lskip(value + [space])) == value
  {
    if value == "" {
      assert [space][1..] == "";
      assert Lskip([space]) == "";
      assert value + [space] == [space];
    } else {
      assert (value + [space])[0] == value[0];
      assert (value + [space])[..|value|] == value;
      RstripTrimmed(value);
    }
  }

  /** A pair line with white space, a semicolon and anything behind it does what the pair line does. */
  lemma NotedLineParses(ctx: Context, name: string, value: string, note: string, lineno: nat, handler: Handler)
    requires CanonicalPair(name, value) && IsNote(note)
    requires lineno == 1 ==> !(BOM <= Render(Noted(name, value, note)))
    ensures Line(ctx, Render(Noted(name, value, note)), lineno, handler)
            == Report(ctx.(prevName := Truncated(name, MAX_NAME)), name, value, handler)
  {
    var kept := NotedBody(name + "=" + value, note, lineno);
    var body := name + "=" + value + kept;
    assert body[0] == if name == "" then '=' else name[0];
    NotedParts(name, value, kept);
  }

  /** Of a note only white space at its end is stripped. */
  lemma NotedBody(front: string, note: string, lineno: nat) returns (kept: string)
    requires front != "" && NoLeadingSpace(front) && IsNote(note)
    requires lineno == 1 ==> !(BOM <= front + note + "\n")
    ensures |kept| >= 2 && kept[0] == note[0] && kept[1] == ';'
    ensures Body(front + note + "\n", lineno) == front + kept && !Indented(front + note + "\n", lineno)
  {
    var chunk := front + note + "\n";
    NoteStays(note + "\n");
    kept := Rstrip(note + "\n");
    assert chunk == front + (note + "\n");
    RstripKeepsFront(front, note + "\n");
    assert chunk[0..] == chunk && BomLength(chunk, lineno) == 0;
    LskipTrimmed(front + kept);
  }

  // ----- The other lines -----

  lemma RemarkParses(ctx: Context, text: string, lineno: nat, handler: Handler)
    requires CanonicalItem(Remark(text)) && (lineno == 1 ==> !(BOM <= text + "\n"))
    ensures Line(ctx, text + "\n", lineno, handler) == LineResult(ctx, false)
  {
    BodyOfLine(text, lineno);
  }

  lemma EmptyParses(ctx: Context, lineno: nat, handler: Handler)
    ensures Line(ctx, "\n", lineno, handler) == LineResult(ctx, false)
  {
    var chunk := "\n";
    assert chunk[0..] == chunk && chunk[..0] == "";
    assert Rstrip(chunk) == "";
  }

  lemma MoreParses(ctx: Context, value: string, lineno: nat, handler: Handler)
    requires CanonicalItem(More(value)) && ctx.prevName != "" && lineno != 1
    ensures Line(ctx, " " + value + "\n", lineno, handler) == Report(ctx, ctx.prevName, value, handler)
  {
    var chunk := " " + value + "\n";
    assert chunk == " " + (value + "\n");
    RstripTrimmed(value);
    RstripKeepsFront(" ", value + "\n");
    assert (" " + value)[1..] == value;
    LskipTrimmed(value);
    assert chunk[0..] == chunk;
    assert Body(chunk, lineno) == value && Indented(chunk, lineno);
  }

  lemma JunkParses(ctx: Context, text: string, lineno: nat, handler: Handler)
    requires CanonicalItem(Junk(text)) && (lineno == 1 ==> !(BOM <= text + "\n"))
    ensures Line(ctx, text + "\n", lineno, handler) == LineResult(ctx, true)
  {
    BodyOfLine(text, lineno);
    assert text + "" == text;
    FindClean(text, "", "=:", 0, false);
  }

  lemma OpenParses(ctx: Context, text: string, lineno: nat, handler: Handler)
    requires CanonicalItem(Open(text))
    ensures Line(ctx, "[" + text + "\n", lineno, handler) == LineResult(ctx, true)
  {
    var line := "[" + text;
    assert line[0] == '[' && line[|line| - 1] == if text == "" then '[' else text[|text| - 1];
    assert (line + "\n")[0] == '[' && BOM[0] != '[';
    BodyOfLine(line, lineno);
    assert line[1..] == text && text + "" == text;
    FindClean(text, "", "]", 0, false);
  }

  // ----- The document -----

  /** What the items of a document do to the context, line by line. */
  predicate Follows(r: Result, prev: string, item: Item, next: Result, handler: Handler) {
    && next.lineno == r.lineno + 1
    && next.context.section == SectionAfter(r.context.section, item)
    && next.context.prevName == Truncated(NameAfter(prev, item), MAX_NAME)
    && next.context.calls == r.context.calls + EventOf(r.context.section, prev, item)
    && next.error == if r.error == 0 && (IsBad(item) || (EventOf(r.context.section, prev, item) != []
                                                         && !handler(next.context.calls)))
                     then r.lineno + 1 else r.error
  }

  /** The parser stands behind a line with the name `prev`. */
  predicate Stands(r: Result, prev: string) {
    r.context.prevName == Truncated(prev, MAX_NAME) && (r.lineno == 0 ==> prev == "")
  }

  /** What the line of an item does. */
  function ItemLine(ctx: Context, item: Item, handler: Handler): LineResult {
    match item
    case Section(name) => LineResult(Context(name, "", ctx.calls), false)
    case Pair(name, value) => Report(ctx.(prevName := Truncated(name, MAX_NAME)), name, value, handler)
    case Noted(name, value, _) => Report(ctx.(prevName := Truncated(name, MAX_NAME)), name, value, handler)
    case Remark(_) => LineResult(ctx, false)
    case Empty => LineResult(ctx, false)
    case More(value) => Report(ctx, ctx.prevName, value, handler)
    case Junk(_) => LineResult(ctx, true)
    case Open(_) => LineResult(ctx, true)
  }

  lemma ItemParses(ctx: Context, item: Item, lineno: nat, handler: Handler)
    requires CanonicalItem(item) && (item.More? ==> ctx.prevName != "" && lineno != 1)
    requires lineno == 1 ==> !(BOM <= Render(item))
    ensures Line(ctx, Render(item), lineno, handler) == ItemLine(ctx, item, handler)
  {
    match item
    case Section(name) => SectionLineParses(ctx, name, lineno, handler);
    case Pair(name, value) => PairLineParses(ctx, name, value, lineno, handler);
    case Noted(name, value, note) => NotedLineParses(ctx, name, value, note, lineno, handler);
    case Remark(text) => RemarkParses(ctx, text, lineno, handler);
    case Empty => EmptyParses(ctx, lineno, handler);
    case More(value) => MoreParses(ctx, value, lineno, handler);
    case Junk(text) => JunkParses(ctx, text, lineno, handler);
    case Open(text) => OpenParses(ctx, text, lineno, handler);
  }

  lemma LineFollows(r: Result, prev: string, item: Item, next: Result, handler: Handler)
    requires Stands(r, prev) && next.lineno == r.lineno + 1
    requires var line := ItemLine(r.context, item, handler);
             next.context == line.context && next.error == if line.bad && r.error == 0 then r.lineno + 1 else r.error
    ensures Follows(r, prev, item, next, handler)
  {
  }

  lemma ItemStep(r: Result, prev: string, item: Item, handler: Handler)
    requires CanonicalItem(item) && Stands(r, prev) && (item.More? ==> prev != "")
    requires r.lineno == 0 ==> !(BOM <= Render(item))
    ensures Follows(r, prev, item, Step(r, Render(item), handler), handler)
  {
    ItemParses(r.context, item, r.lineno + 1, handler);
    LineFollows(r, prev, item, Step(r, Render(item), handler), handler);
  }

  lemma {:induction false} RunOfDocument(r: Result, prev: string, doc: seq<Item>, handler: Handler)
    requires (forall i | 0 <= i < |doc| :: CanonicalItem(doc[i])) && Placed(prev, doc) && Stands(r, prev)
    requires doc != [] && r.lineno == 0 ==> !(BOM <= Render(doc[0]))
    ensures Run(r, Lines(doc), handler).context.calls == r.context.calls + Events(r.context.section, prev, doc)
    decreases |doc|
  {
    if doc == [] {
      assert Lines(doc) == [];
    } else {
      var next := Step(r, Render(doc[0]), handler);
      ItemStep(r, prev, doc[0], handler);
      RunOfDocument(next, NameAfter(prev, doc[0]), doc[1..], handler);
      RunCons(r, Render(doc[0]), Lines(doc[1..]), handler);
      EventsCons(r, prev, doc, next, handler);
    }
  }

  lemma {:induction false} ErrorOfDocument(r: Result, prev: string, doc: seq<Item>, handler: Handler)
    requires (forall i | 0 <= i < |doc| :: CanonicalItem(doc[i])) && Placed(prev, doc) && Stands(r, prev)
    requires (doc != [] && r.lineno == 0 ==> !(BOM <= Render(doc[0]))) && forall calls :: handler(calls)
    ensures Run(r, Lines(doc), handler).error == if r.error != 0 then r.error else FirstBadItem(doc, r.lineno)
    decreases |doc|
  {
    if doc == [] {
      assert Lines(doc) == [];
    } else {
      ItemStep(r, prev, doc[0], handler);
      ErrorOfDocument(Step(r, Render(doc[0]), handler), NameAfter(prev, doc[0]), doc[1..], handler);
      RunCons(r, Render(doc[0]), Lines(doc[1..]), handler);
    }
  }

  lemma RunCons(r: Result, chunk: string, rest: seq<string>, handler: Handler)
    ensures Run(r, [chunk] + rest, handler) == Run(Step(r, chunk, handler), rest, handler)
  {
    assert ([chunk] + rest)[1..] == rest;
  }

  lemma EventsCons(r: Result, prev: string, doc: seq<Item>, next: Result, handler: Handler)
    requires doc != [] && Follows(r, prev, doc[0], next, handler)
    ensures next.context.calls + Events(next.context.section, NameAfter(prev, doc[0]), doc[1..])
            == r.context.calls + Events(r.context.section, prev, doc)
  {
    Associative(r.context.calls, EventOf(r.context.section, prev, doc[0]),
                Events(next.context.section, NameAfter(prev, doc[0]), doc[1..]));
  }

  lemma Associative(a: seq<Call>, b: seq<Call>, c: seq<Call>)
    ensures (a + b) + c == a + (b + c)
  {
  }

  /** Rendering then parsing is the identity: the handler is called with exactly the document's pairs and
      further values under their sections, in order, whatever it answers and whatever comments and other
      lines there are; if it always accepts, the result is the number of the first line that is none of
      those, or 0. */
  lemma ParseRenderIdentity(doc: seq<Item>, handler: Handler)
    requires Canonical(doc)
    ensures Parse(RenderAll(doc), handler).context.calls == Events("", "", doc)
    ensures (forall calls :: handler(calls)) ==> Parse(RenderAll(doc), handler).error == FirstBadItem(doc, 0)
  {
    ChunksOfDocument(doc);
    RunOfDocument(START, "", doc, handler);
    if forall calls :: handler(calls) { ErrorOfDocument(START, "", doc, handler); }
  }

  /** The text of a document with a comment behind one of its pairs makes the same calls as without. */
  lemma CommentMakesNoDifference(doc: seq<Item>, i: nat, note: string, handler: Handler)
    requires Canonical(doc) && i < |doc| && doc[i].Pair?
    requires Canonical(doc[i := Noted(doc[i].name, doc[i].value, note)])
    ensures Parse(RenderAll(doc[i := Noted(doc[i].name, doc[i].value, note)]), handler).context.calls
         == Parse(RenderAll(doc), handler).context.calls
  {
    ParseRenderIdentity(doc, handler);
    ParseRenderIdentity(doc[i := Noted(doc[i].name, doc[i].value, note)], handler);
    NotedEvents("", "", doc, i, note);
  }

  lemma {:induction false} NotedEvents(section: string, prev: string, doc: seq<Item>, i: nat, note: string)
    requires i < |doc| && doc[i].Pair?
    ensures Events(section, prev, doc[i := Noted(doc[i].name, doc[i].value, note)]) == Events(section, prev, doc)
    decreases i
  {
    var noted := doc[i := Noted(doc[i].name, doc[i].value, note)];
    if i > 0 {
      assert noted[1..] == doc[1..][i - 1 := Noted(doc[i].name, doc[i].value, note)];
      NotedEvents(SectionAfter(section, doc[0]), NameAfter(prev, doc[0]), doc[1..], i - 1, note);
    } else {
      assert noted[1..] == doc[1..];
    }
  }

  // ----- A stump in action -----

  /** The exception in `CallsAreTrimmed` is real: a 50-character name with a blank in 49th place,
      continued on the next line, reaches the handler with the blank at its end. */
  lemma StumpCanEndInSpace(ctx: Context)
    ensures var name := seq(48, _ => 'a') + " b";
            var first := Line(ctx, Render(Pair(name, "1")), 2, _ => true).context;
            var second := Line(first, " 2\n", 3, _ => true).context;
            && Trimmed(name)
            && second.calls
               == ctx.calls + [Call(ctx.section, name, "1"), Call(ctx.section, seq(48, _ => 'a') + " ", "2")]
  {
    var name := seq(48, _ => 'a') + " b";
    PairLineParses(ctx, name, "1", 2, _ => true);
    var first := Line(ctx, Render(Pair(name, "1")), 2, _ => true).context;
    assert first.prevName == seq(48, _ => 'a') + " ";
    ContinuationParses(first, 3, _ => true);
  }

  const LONG_NAME := seq(48, _ => 'a') + " b"

  /** The whole text: two lines. */
  const STUMP_TEXT := LONG_NAME + "=1\n 2\n"

  lemma StumpChunks()
    ensures Chunks(STUMP_TEXT) == [Render(Pair(LONG_NAME, "1")), " 2\n"]
  {
    var line, rest := LONG_NAME + "=1", " 2\n";
    assert STUMP_TEXT == line + "\n" + rest;
    ChunkOfLine(line, rest, MAX_LINE - 1);
    assert Render(Pair(LONG_NAME, "1")) == line + "\n";
    assert STUMP_TEXT[..|line| + 1] == line + "\n" && STUMP_TEXT[|line| + 1..] == rest;
    assert rest == " 2" + "\n" + "";
    ChunkOfLine(" 2", "", MAX_LINE - 1);
    assert rest[..3] == rest && rest[3..] == "";
    assert Chunks(rest) == [rest] + Chunks("");
  }

  lemma RunOfTwo(r: Result, first: string, second: string, handler: Handler)
    ensures Run(r, [first, second], handler) == Step(Step(r, first, handler), second, handler)
  {
    assert [first, second] == [first] + [second];
    RunCons(r, first, [second], handler);
    assert [second] == [second] + [];
    RunCons(Step(r, first, handler), second, [], handler);
  }

  lemma StumpIsLeft(handler: Handler)
    ensures Step(START, Render(Pair(LONG_NAME, "1")), handler).lineno == 1
    ensures Step(START, Render(Pair(LONG_NAME, "1")), handler).context
         == Context("", seq(48, _ => 'a') + " ", [Call("", LONG_NAME, "1")])
  {
    assert Render(Pair(LONG_NAME, "1"))[0] == 'a';
    PairLineParses(START.context, LONG_NAME, "1", 1, handler);
    assert Truncated(LONG_NAME, MAX_NAME) == seq(48, _ => 'a') + " ";
  }

  /** Parsing it hands out a name that ends in a blank. */
  lemma StumpTextParses()
    ensures Parse(STUMP_TEXT, _ => true).context.calls
         == [Call("", LONG_NAME, "1"), Call("", seq(48, _ => 'a') + " ", "2")]
    ensures Trimmed(LONG_NAME) && !NamesTrimmed(Parse(STUMP_TEXT, _ => true).context.calls)
  {
    var handler: Handler := _ => true;
    var first := Render(Pair(LONG_NAME, "1"));
    StumpChunks();
    RunOfTwo(START, first, " 2\n", handler);
    StumpIsLeft(handler);
    ContinuationParses(Step(START, first, handler).context, 2, handler);
    assert !Trimmed(Parse(STUMP_TEXT, handler).context.calls[1].name);
  }

  lemma ContinuationParses(ctx: Context, lineno: nat, handler: Handler)
    requires ctx.prevName != "" && lineno > 1
    ensures Line(ctx, " 2\n", lineno, handler).context
            == ctx.(calls := ctx.calls + [Call(ctx.section, ctx.prevName, "2")])
  {
    var chunk := " 2\n";
    assert chunk[0..] == chunk;
    assert chunk[..2] == " 2";
    assert Rstrip(chunk) == " 2";
    assert " 2"[1..] == "2";
    assert Lskip(" 2") == "2";
    assert Body(chunk, lineno) == "2" && Indented(chunk, lineno);
  }
}
