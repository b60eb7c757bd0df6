/** How a text is to be read, said by positions alone: where lines end, what is stripped, which character
    ends a name, a value or a section, and what each line then does. */
module IniMeaning {
  import opened IniSpec
  import opened IniProperties

  // ----- Positions -----

  predicate Blank(c: char) { c in " \t\n\U{B}\U{C}\r" }

  /** Position `k` holds one of `chars`, or a semicolon right behind white space. */
  predicate Stop(s: string, chars: string, k: int)
    requires 0 <= k < |s|
  {
    s[k] in chars || (k > 0 && Blank(s[k - 1]) && s[k] == ';')
  }

  /** `e` is the least such position, or the length when there is none. */
  ghost predicate FirstStop(s: string, chars: string, e: int) {
    && 0 <= e <= |s| && (e < |s| ==> Stop(s, chars, e))
    && forall k | 0 <= k < e :: !Stop(s, chars, k)
  }

  ghost predicate AllBlank(s: string, lo: int, hi: int)
    requires 0 <= lo <= hi <= |s|
  {
    forall k | lo <= k < hi :: Blank(s[k])
  }

  /** [lo, hi) is what white space surrounds; it is empty or begins and ends with something else. */
  ghost predicate Core(s: string, lo: int, hi: int) {
    && 0 <= lo <= hi <= |s| && AllBlank(s, 0, lo) && AllBlank(s, hi, |s|)
    && (lo < hi ==> !Blank(s[lo]) && !Blank(s[hi - 1]))
  }

  /** The first `n` characters, or all. */
  function First(s: string, n: nat): string { if |s| <= n then s else s[..n] }

  // ----- A line -----

  ghost predicate SectionMeans(ctx: Context, body: string, e: int, r: LineResult)
    requires body != ""
  {
    var rest := body[1..];
    && FirstStop(rest, "]", e)
    && r == if e < |rest| && rest[e] == ']' then LineResult(Context(First(rest[..e], 49), "", ctx.calls), false)
            else LineResult(ctx, true)
  }

  /** The value behind the separator: up to an inline comment, between its white space. */
  ghost predicate ValueMeans(rest: string, value: string) {
    exists f, lo, hi :: FirstStop(rest, "", f) && Core(rest[..f], lo, hi) && value == rest[..f][lo..hi]
  }

  ghost predicate NameMeans(body: string, e: int, n: int) {
    0 <= n <= e <= |body| && AllBlank(body, n, e) && (n > 0 ==> !Blank(body[n - 1]))
  }

  ghost predicate Called(ctx: Context, prevName: string, name: string, value: string, handler: Handler, r: LineResult) {
    var calls := ctx.calls + [Call(ctx.section, name, value)];
    r == LineResult(Context(ctx.section, prevName, calls), !handler(calls))
  }

  ghost predicate PairCalls(ctx: Context, body: string, handler: Handler, e: int, n: int, value: string,
                            r: LineResult) {
    && 0 <= e < |body| && NameMeans(body, e, n) && ValueMeans(body[e + 1..], value)
    && Called(ctx, First(body[..n], 49), body[..n], value, handler, r)
  }

  ghost predicate PairMeans(ctx: Context, body: string, handler: Handler, e: int, r: LineResult) {
    && FirstStop(body, "=:", e)
    && if e < |body| && body[e] in "=:" then
         exists n, value :: PairCalls(ctx, body, handler, e, n, value, r)
       else r == LineResult(ctx, true)
  }

  ghost predicate BodyMeans(ctx: Context, body: string, indented: bool, handler: Handler, r: LineResult) {
    if body == "" || body[0] == ';' || body[0] == '#' then r == LineResult(ctx, false)
    else if ctx.prevName != "" && indented then Called(ctx, ctx.prevName, ctx.prevName, body, handler, r)
    else if body[0] == '[' then exists e :: SectionMeans(ctx, body, e, r)
    else exists e :: PairMeans(ctx, body, handler, e, r)
  }

  /** Behind a byte order mark on the first line. */
  function BehindMark(chunk: string, lineno: nat): nat {
    if lineno == 1 && |chunk| >= 3 && chunk[..3] == "\U{EF}\U{BB}\U{BF}" then 3 else 0
  }

  ghost predicate LineMeans(ctx: Context, chunk: string, lineno: nat, handler: Handler, r: LineResult) {
    exists b: nat, lo, hi ::
      b <= |chunk| && b == BehindMark(chunk, lineno) && Core(chunk[b..], lo, hi)
      && BodyMeans(ctx, chunk[b..][lo..hi], b + lo > 0, handler, r)
  }

  // ----- A text -----

  /** The pieces make up the text; each is at most 199 characters, ends in a newline unless it is full or
      the last, and has no newline before its end. */
  ghost predicate Pieces(text: string, chunks: seq<string>) {
    && Flatten(chunks) == text
    && (forall i | 0 <= i < |chunks| :: 0 < |chunks[i]| <= 199 && '\n' !in chunks[i][..|chunks[i]| - 1])
    && forall i | 0 <= i < |chunks| - 1 :: |chunks[i]| == 199 || chunks[i][|chunks[i]| - 1] == '\n'
  }

  /** Line by line: `ctxs[i]` is the context in front of piece `i`, and `bad[i]` whether it is bad. */
  ghost predicate Reading(chunks: seq<string>, handler: Handler, ctxs: seq<Context>, bad: seq<bool>) {
    && |ctxs| == |chunks| + 1 && |bad| == |chunks| && ctxs[0] == Context("", "", [])
    && forall i | 0 <= i < |chunks| :: LineMeans(ctxs[i], chunks[i], i + 1, handler, LineResult(ctxs[i + 1], bad[i]))
  }

  /** The number of the first bad line, or 0. */
  ghost predicate FirstBadLine(bad: seq<bool>, error: int) {
    && 0 <= error <= |bad|
    && (if error == 0 then forall i | 0 <= i < |bad| :: !bad[i]
        else bad[error - 1] && forall i | 0 <= i < error - 1 :: !bad[i])
  }

  ghost predicate TextMeans(text: string, handler: Handler, calls: seq<Call>, error: int) {
    exists chunks: seq<string>, ctxs: seq<Context>, bad: seq<bool> ::
      Pieces(text, chunks) && Reading(chunks, handler, ctxs, bad)
      && calls == ctxs[|chunks|].calls && FirstBadLine(bad, error)
  }

  // ----- The parser reads texts so -----

  lemma BlankIsSpace(c: char)
    ensures Blank(c) <==> IsSpace(c)
  {
  }

  lemma {:induction false} FindFromStops(s: string, chars: string, k: nat, wasSpace: bool)
    requires k <= |s| && wasSpace == (k > 0 && Blank(s[k - 1])) && forall j | 0 <= j < k :: !Stop(s, chars, j)
    ensures FirstStop(s, chars, FindFrom(s, chars, k, wasSpace))
    decreases |s| - k
  {
    if k < |s| && !Stop(s, chars, k) { FindFromStops(s, chars, k + 1, IsSpace(s[k])); }
  }

  /** For every string, the search finds the least position that holds one of `chars` or a semicolon
      right behind white space, and the length when there is none. */
  lemma FindIsFirstStop(s: string, chars: string)
    ensures FirstStop(s, chars, Find(s, chars))
  {
    FindFromStops(s, chars, 0, false);
  }

  lemma StripIsCore(s: string) returns (lo: int, hi: int)
    ensures Core(s, lo, hi) && Lskip(Rstrip(s)) == s[lo..hi] && lo + |Lskip(Rstrip(s))| == hi == |Rstrip(s)|
  {
    var t := Rstrip(s);
    RstripMeaning(s);
    var k := LskipMeaning(t);
    lo, hi := k, |t|;
    assert t == s[..hi];
    LskipKeepsEnd(t);
  }

  /** Skipping first gives the same. */
  lemma SkipIsCore(s: string) returns (lo: int, hi: int)
    ensures Core(s, lo, hi) && Rstrip(Lskip(s)) == s[lo..hi]
  {
    var k := LskipMeaning(s);
    var t := Lskip(s);
    RstripMeaning(t);
    RstripKeepsStart(t);
    lo, hi := k, k + |Rstrip(t)|;
    assert forall i | hi <= i < |s| :: s[i] == t[i - k];
  }

  lemma SectionIsMeant(ctx: Context, body: string)
    requires body != ""
    ensures SectionMeans(ctx, body, Find(body[1..], "]"), SectionLine(ctx, body))
  {
    FindIsFirstStop(body[1..], "]");
  }

  lemma ValueIsMeant(body: string)
    requires Find(body, "=:") < |body|
    ensures ValueMeans(body[Find(body, "=:") + 1..], PairValue(body))
  {
    var rest := body[Find(body, "=:") + 1..];
    var f := Find(rest, "");
    FindIsFirstStop(rest, "");
    var lo, hi := SkipIsCore(rest[..f]);
  }

  lemma NameIsMeant(body: string, e: nat)
    requires e <= |body|
    ensures |Rstrip(body[..e])| <= e && Rstrip(body[..e]) == body[..|Rstrip(body[..e])|]
    ensures NameMeans(body, e, |Rstrip(body[..e])|)
  {
    RstripMeaning(body[..e]);
  }

  lemma PairIsMeant(ctx: Context, body: string, handler: Handler)
    ensures PairMeans(ctx, body, handler, Find(body, "=:"), PairLine(ctx, body, handler))
  {
    var e := Find(body, "=:");
    var r := PairLine(ctx, body, handler);
    FindIsFirstStop(body, "=:");
    if e < |body| && body[e] in "=:" {
      var n := |PairName(body)|;
      NameIsMeant(body, e);
      ValueIsMeant(body);
      assert PairCalls(ctx, body, handler, e, n, PairValue(body), r);
    }
  }

  lemma BodyIsMeant(ctx: Context, body: string, indented: bool, handler: Handler)
    ensures BodyMeans(ctx, body, indented, handler, BodyLine(ctx, body, indented, handler))
  {
    if body != "" {
      SectionIsMeant(ctx, body);
      PairIsMeant(ctx, body, handler);
    }
  }

  lemma LineIsMeant(ctx: Context, chunk: string, lineno: nat, handler: Handler)
    ensures LineMeans(ctx, chunk, lineno, handler, Line(ctx, chunk, lineno, handler))
  {
    var b := BomLength(chunk, lineno);
    assert b == BehindMark(chunk, lineno);
    var lo, hi := StripIsCore(chunk[b..]);
    BodyIsMeant(ctx, Body(chunk, lineno), Indented(chunk, lineno), handler);
    IndentedIff(chunk, lineno, lo, hi);
    IndentMatters(ctx, Body(chunk, lineno), Indented(chunk, lineno), b + lo > 0, handler);
  }

  lemma IndentedIff(chunk: string, lineno: nat, lo: int, hi: int)
    requires lo + |Body(chunk, lineno)| == hi == |Rstrip(chunk[BomLength(chunk, lineno)..])|
    ensures Indented(chunk, lineno) <==> BomLength(chunk, lineno) + lo > 0
  {
  }

  lemma IndentMatters(ctx: Context, body: string, indented: bool, also: bool, handler: Handler)
    requires indented == also
    ensures BodyLine(ctx, body, indented, handler) == BodyLine(ctx, body, also, handler)
  {
  }

  /** The contexts in front of the lines, and which lines are bad. */
  function ContextsOf(chunks: seq<string>, handler: Handler, n: nat): (r: seq<Context>)
    requires n <= |chunks|
    ensures |r| == n + 1 && forall i | 0 <= i <= n :: r[i] == Run(START, chunks[..i], handler).context
  {
    if n == 0 then [START.context] else ContextsOf(chunks, handler, n - 1) + [Run(START, chunks[..n], handler).context]
  }

  function BadOf(chunks: seq<string>, handler: Handler, n: nat): (r: seq<bool>)
    requires n <= |chunks|
    ensures |r| == n && forall i | 0 <= i < n :: r[i] == BadAt(START, chunks, handler, i)
  {
    if n == 0 then [] else BadOf(chunks, handler, n - 1) + [BadAt(START, chunks, handler, n - 1)]
  }

  lemma LineOfRun(chunks: seq<string>, handler: Handler, i: nat)
    requires i < |chunks|
    ensures var before, after := Run(START, chunks[..i], handler), Run(START, chunks[..i + 1], handler);
            Line(before.context, chunks[i], i + 1, handler)
            == LineResult(after.context, BadAt(START, chunks, handler, i))
  {
    ErrorIsFirstBadLine(chunks[..i], handler);
    assert chunks[..i + 1] == chunks[..i] + [chunks[i]];
    RunAppend(START, chunks[..i], chunks[i], handler);
  }

  lemma RunIsReading(chunks: seq<string>, handler: Handler)
    ensures Reading(chunks, handler, ContextsOf(chunks, handler, |chunks|), BadOf(chunks, handler, |chunks|))
  {
    var ctxs, bad := ContextsOf(chunks, handler, |chunks|), BadOf(chunks, handler, |chunks|);
    forall i | 0 <= i < |chunks|
      ensures LineMeans(ctxs[i], chunks[i], i + 1, handler, LineResult(ctxs[i + 1], bad[i]))
    {
      LineOfRun(chunks, handler, i);
      LineIsMeant(ctxs[i], chunks[i], i + 1, handler);
    }
  }

  lemma ErrorIsMeant(chunks: seq<string>, handler: Handler)
    ensures FirstBadLine(BadOf(chunks, handler, |chunks|), Run(START, chunks, handler).error)
  {
    ErrorIsFirstBadLine(chunks, handler);
  }

  lemma ChunksArePieces(text: string)
    ensures Pieces(text, Chunks(text))
  {
    ChunksPartitionText(text);
  }

  /** For every text and handler, the calls and the error are those of that reading. */
  lemma ParseIsMeant(text: string, handler: Handler)
    ensures TextMeans(text, handler, Parse(text, handler).context.calls, Parse(text, handler).error)
  {
    var chunks := Chunks(text);
    ChunksArePieces(text);
    RunIsReading(chunks, handler);
    ErrorIsMeant(chunks, handler);
    assert chunks[..|chunks|] == chunks;
  }

  // ----- There is only one reading -----

  lemma CoreIsUnique(s: string, lo: int, hi: int, p: int, q: int)
    requires Core(s, lo, hi) && Core(s, p, q)
    ensures s[lo..hi] == s[p..q] && (lo < hi ==> lo == p && hi == q)
  {
    if lo < hi {
      assert !(lo < p) && !(q < hi);
      assert p < q;
    }
  }

  lemma StopIsUnique(s: string, chars: string, e: int, f: int)
    requires FirstStop(s, chars, e) && FirstStop(s, chars, f)
    ensures e == f
  {
  }

  lemma ValueIsUnique(rest: string, value: string, other: string)
    requires ValueMeans(rest, value) && ValueMeans(rest, other)
    ensures value == other
  {
    var f, lo, hi :| FirstStop(rest, "", f) && Core(rest[..f], lo, hi) && value == rest[..f][lo..hi];
    var g, p, q :| FirstStop(rest, "", g) && Core(rest[..g], p, q) && other == rest[..g][p..q];
    StopIsUnique(rest, "", f, g);
    CoreIsUnique(rest[..f], lo, hi, p, q);
  }

  lemma NameIsUnique(body: string, e: int, n: int, m: int)
    requires NameMeans(body, e, n) && NameMeans(body, e, m)
    ensures n == m
  {
  }

  lemma PairIsUnique(ctx: Context, body: string, handler: Handler, e: int, f: int, r: LineResult, q: LineResult)
    requires PairMeans(ctx, body, handler, e, r) && PairMeans(ctx, body, handler, f, q)
    ensures r == q
  {
    StopIsUnique(body, "=:", e, f);
    if e < |body| && body[e] in "=:" {
      var n, value :| PairCalls(ctx, body, handler, e, n, value, r);
      var m, other :| PairCalls(ctx, body, handler, e, m, other, q);
      CallIsUnique(ctx, body, handler, e, n, value, r, m, other, q);
    }
  }

  lemma CallIsUnique(ctx: Context, body: string, handler: Handler, e: int, n: int, value: string, r: LineResult,
      m: int, other: string, q: LineResult)
    requires PairCalls(ctx, body, handler, e, n, value, r) && PairCalls(ctx, body, handler, e, m, other, q)
    ensures r == q
  {
    NameIsUnique(body, e, n, m);
    ValueIsUnique(body[e + 1..], value, other);
  }

  lemma BodyIsUnique(ctx: Context, body: string, indented: bool, handler: Handler, r: LineResult, q: LineResult)
    requires BodyMeans(ctx, body, indented, handler, r) && BodyMeans(ctx, body, indented, handler, q)
    ensures r == q
  {
    if body == "" || body[0] == ';' || body[0] == '#' || (ctx.prevName != "" && indented) {
    } else if body[0] == '[' {
      var e :| SectionMeans(ctx, body, e, r);
      var f :| SectionMeans(ctx, body, f, q);
      StopIsUnique(body[1..], "]", e, f);
    } else {
      var e :| PairMeans(ctx, body, handler, e, r);
      var f :| PairMeans(ctx, body, handler, f, q);
      PairIsUnique(ctx, body, handler, e, f, r, q);
    }
  }

  lemma LineIsUnique(ctx: Context, chunk: string, lineno: nat, handler: Handler, r: LineResult, q: LineResult)
    requires LineMeans(ctx, chunk, lineno, handler, r) && LineMeans(ctx, chunk, lineno, handler, q)
    ensures r == q
  {
    var b: nat, lo, hi :| b <= |chunk| && b == BehindMark(chunk, lineno) && Core(chunk[b..], lo, hi)
                          && BodyMeans(ctx, chunk[b..][lo..hi], b + lo > 0, handler, r);
    var c: nat, p, n :| c <= |chunk| && c == BehindMark(chunk, lineno) && Core(chunk[c..], p, n)
                        && BodyMeans(ctx, chunk[c..][p..n], c + p > 0, handler, q);
    CoreIsUnique(chunk[b..], lo, hi, p, n);
    if lo < hi { BodyIsUnique(ctx, chunk[b..][lo..hi], b + lo > 0, handler, r, q); }
  }

  lemma {:induction false} ReadingIsUnique(chunks: seq<string>, handler: Handler, ctxs: seq<Context>, bad: seq<bool>,
      others: seq<Context>, also: seq<bool>, i: nat)
    requires Reading(chunks, handler, ctxs, bad) && Reading(chunks, handler, others, also) && i <= |chunks|
    ensures ctxs[i] == others[i] && (i < |chunks| ==> bad[i] == also[i])
    decreases i
  {
    if i > 0 {
      ReadingIsUnique(chunks, handler, ctxs, bad, others, also, i - 1);
      LineIsUnique(ctxs[i - 1], chunks[i - 1], i - 1 + 1, handler,
                   LineResult(ctxs[i - 1 + 1], bad[i - 1]), LineResult(others[i - 1 + 1], also[i - 1]));
    }
    if i < |chunks| {
      LineIsUnique(ctxs[i], chunks[i], i + 1, handler, LineResult(ctxs[i + 1], bad[i]),
                   LineResult(others[i + 1], also[i]));
    }
  }

  lemma OnePiece(text: string, chunks: seq<string>)
    requires Pieces(text, chunks) && |chunks| == 1
    ensures text == chunks[0]
  {
    assert chunks[1..] == [];
    assert Flatten(chunks) == chunks[0] + Flatten([]);
  }

  lemma FirstPieceIsUnique(text: string, chunks: seq<string>, others: seq<string>)
    requires Pieces(text, chunks) && Pieces(text, others) && text != ""
    ensures chunks != [] && others != [] && |chunks[0]| <= |others[0]|
  {
    var c, d := chunks[0], others[0];
    assert c <= text && d <= text;
    if |d| <= |c| { assert c[|d| - 1] == text[|d| - 1] == d[|d| - 1]; }
    if |others| == 1 { OnePiece(text, others); }
  }

  lemma {:induction false} PiecesAreUnique(text: string, chunks: seq<string>, others: seq<string>)
    requires Pieces(text, chunks) && Pieces(text, others)
    ensures chunks == others
    decreases |text|
  {
    if text == "" {
      assert chunks == [] && others == [];
    } else {
      FirstPieceIsUnique(text, chunks, others);
      FirstPieceIsUnique(text, others, chunks);
      var c := chunks[0];
      PiecesBehind(text, chunks);
      PiecesBehind(text, others);
      assert |others[0]| == |c|;
      PiecesAreUnique(text[|c|..], chunks[1..], others[1..]);
      assert chunks == [c] + chunks[1..] && others == [c] + others[1..];
    }
  }

  lemma PiecesBehind(text: string, chunks: seq<string>)
    requires Pieces(text, chunks) && chunks != []
    ensures |chunks[0]| <= |text| && chunks[0] == text[..|chunks[0]|] && Pieces(text[|chunks[0]|..], chunks[1..])
  {
    assert text[|chunks[0]|..] == Flatten(chunks[1..]);
    forall i | 0 <= i < |chunks| - 1
      ensures 0 < |chunks[1..][i]| <= 199 && '\n' !in chunks[1..][i][..|chunks[1..][i]| - 1]
      ensures i < |chunks| - 2 ==> |chunks[1..][i]| == 199 || chunks[1..][i][|chunks[1..][i]| - 1] == '\n'
    {
      assert chunks[1..][i] == chunks[i + 1];
    }
  }

  /** A text has only one reading. */
  lemma ReadingIsTheOnlyOne(text: string, handler: Handler, calls: seq<Call>, error: int, others: seq<Call>, also: int)
    requires TextMeans(text, handler, calls, error) && TextMeans(text, handler, others, also)
    ensures calls == others && error == also
  {
    var chunks: seq<string>, ctxs: seq<Context>, bad: seq<bool> :|
      Pieces(text, chunks) && Reading(chunks, handler, ctxs, bad)
      && calls == ctxs[|chunks|].calls && FirstBadLine(bad, error);
    var pieces: seq<string>, cs: seq<Context>, bs: seq<bool> :|
      Pieces(text, pieces) && Reading(pieces, handler, cs, bs)
      && others == cs[|pieces|].calls && FirstBadLine(bs, also);
    PiecesAreUnique(text, chunks, pieces);
    ReadingIsUnique(chunks, handler, ctxs, bad, cs, bs, |chunks|);
    forall i | 0 <= i < |chunks| ensures bad[i] == bs[i] { ReadingIsUnique(chunks, handler, ctxs, bad, cs, bs, i); }
    assert bad == bs;
  }
}
