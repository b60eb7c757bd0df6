/** Properties of the INI parser: chunking loses nothing, the result is the first bad line,
    what the handler is given is trimmed, and parsing undoes rendering. */
module IniProperties {
  import opened IniSpec

  // ----- Chunking -----

  predicate FillsOrEnds(chunk: string) { |chunk| == MAX_LINE - 1 || (chunk != "" && chunk[|chunk| - 1] == '\n') }

  lemma {:induction false} ShortChunksEnd(text: string)
    ensures forall i | 0 <= i < |Chunks(text)| - 1 :: FillsOrEnds(Chunks(text)[i])
    decreases |text|
  {
    if text != "" {
      var k := ChunkLength(text, MAX_LINE - 1);
      NoNewlineInside(text, MAX_LINE - 1);
      ShortChunksEnd(text[k..]);
      assert Chunks(text) == [text[..k]] + Chunks(text[k..]);
      assert k < |text| ==> FillsOrEnds(text[..k]);
      assert k == |text| ==> Chunks(text[k..]) == [];
      forall i | 0 <= i < |Chunks(text)| - 1 ensures FillsOrEnds(Chunks(text)[i]) {
        if i > 0 { assert Chunks(text)[i] == Chunks(text[k..])[i - 1]; }
      }
    }
  }

  /** The chunks concatenate to the text; each is a non-empty piece that fits the buffer and has no
      newline before its end, and one that does not fill the buffer ends in a newline or is the last. */
  lemma {:induction false} ChunksPartitionText(text: string)
    ensures Flatten(Chunks(text)) == text
    ensures forall i | 0 <= i < |Chunks(text)| ::
              0 < |Chunks(text)[i]| < MAX_LINE && '\n' !in Chunks(text)[i][..|Chunks(text)[i]| - 1]
    ensures forall i | 0 <= i < |Chunks(text)| - 1 :: FillsOrEnds(Chunks(text)[i])
    decreases |text|
  {
    ShortChunksEnd(text);
    if text != "" {
      var k := ChunkLength(text, MAX_LINE - 1);
      NoNewlineInside(text, MAX_LINE - 1);
      ChunksPartitionText(text[k..]);
      assert text == text[..k] + text[k..];
    }
  }

  lemma {:induction false} NoNewlineInside(text: string, n: nat)
    ensures var k := ChunkLength(text, n);
            && (forall j | 0 <= j < k - 1 :: text[j] != '\n')
            && (k < n && k < |text| ==> k > 0 && text[k - 1] == '\n')
  {
    if n > 0 && text != "" && text[0] != '\n' {
      NoNewlineInside(text[1..], n - 1);
      var k := ChunkLength(text, n);
      forall j | 0 <= j < k - 1 ensures text[j] != '\n' {
        if j > 0 { assert text[j] == text[1..][j - 1]; }
      }
      if k < n && k < |text| { assert text[k - 1] == text[1..][k - 2]; }
    }
  }

  // ----- The error number -----

  /** The context before chunk `i`. */
  function ContextBefore(r: Result, chunks: seq<string>, handler: Handler, i: nat): Result
    requires i <= |chunks|
  {
    Run(r, chunks[..i], handler)
  }

  predicate BadAt(r: Result, chunks: seq<string>, handler: Handler, i: nat)
    requires i < |chunks|
  {
    var before := ContextBefore(r, chunks, handler, i);
    Line(before.context, chunks[i], before.lineno + 1, handler).bad
  }

  lemma {:induction false} RunAppend(r: Result, chunks: seq<string>, chunk: string, handler: Handler)
    ensures Run(r, chunks + [chunk], handler) == Step(Run(r, chunks, handler), chunk, handler)
    decreases |chunks|
  {
    if chunks != [] {
      assert (chunks + [chunk])[1..] == chunks[1..] + [chunk];
      RunAppend(Step(r, chunks[0], handler), chunks[1..], chunk, handler);
    }
  }

  ghost predicate AllGood(chunks: seq<string>, handler: Handler, n: nat)
    requires n <= |chunks|
  {
    forall i | 0 <= i < n :: !BadAt(START, chunks, handler, i)
  }

  lemma AllGoodInFront(chunks: seq<string>, handler: Handler, m: nat, n: nat)
    requires n <= m <= |chunks|
    ensures AllGood(chunks[..m], handler, n) == AllGood(chunks, handler, n)
    ensures forall i | 0 <= i < n :: BadAt(START, chunks[..m], handler, i) == BadAt(START, chunks, handler, i)
  {
    forall i | 0 <= i < n ensures BadAt(START, chunks[..m], handler, i) == BadAt(START, chunks, handler, i) {
      assert chunks[..m][..i] == chunks[..i];
    }
  }

  lemma LastLine(r: Result, chunks: seq<string>, handler: Handler, n: nat)
    requires n == |chunks| - 1
    ensures var before, after := Run(r, chunks[..n], handler), Run(r, chunks, handler);
            && after.lineno == before.lineno + 1
            && after.error == if before.error == 0 && BadAt(r, chunks, handler, n) then after.lineno else before.error
  {
    assert chunks == chunks[..n] + [chunks[n]];
    RunAppend(r, chunks[..n], chunks[n], handler);
    StepMeaning(Run(r, chunks[..n], handler), chunks[n], handler);
  }

  lemma StepMeaning(r: Result, chunk: string, handler: Handler)
    ensures var after := Step(r, chunk, handler);
            && after.lineno == r.lineno + 1
            && after.error
               == if r.error == 0 && Line(r.context, chunk, r.lineno + 1, handler).bad then after.lineno else r.error
  {
  }

  /** The error `error` is the number of the first bad line, or zero if there is none. */
  ghost predicate FirstBad(chunks: seq<string>, handler: Handler, error: nat) {
    && error <= |chunks|
    && (if error == 0 then AllGood(chunks, handler, |chunks|)
        else BadAt(START, chunks, handler, error - 1) && AllGood(chunks, handler, error - 1))
  }

  lemma FirstBadGrows(chunks: seq<string>, handler: Handler, n: nat, error: nat)
    requires n == |chunks| - 1 && FirstBad(chunks[..n], handler, error)
    ensures FirstBad(chunks, handler, if error == 0 && BadAt(START, chunks, handler, n) then n + 1 else error)
  {
    AllGoodInFront(chunks, handler, n, if error == 0 then n else error);
    AllGoodInFront(chunks, handler, n, if error == 0 then n else error - 1);
  }

  /** Lines are numbered from one, and the error is the number of the first bad one, or zero. */
  lemma {:induction false} ErrorIsFirstBadLine(chunks: seq<string>, handler: Handler)
    ensures Run(START, chunks, handler).lineno == |chunks|
    ensures FirstBad(chunks, handler, Run(START, chunks, handler).error)
    decreases |chunks|
  {
    if chunks != [] {
      var n := |chunks| - 1;
      ErrorIsFirstBadLine(chunks[..n], handler);
      LastLine(START, chunks, handler, n);
      FirstBadGrows(chunks, handler, n, Run(START, chunks[..n], handler).error);
    }
  }

  // ----- Trimming -----

  predicate NoLeadingSpace(s: string) { s == "" || !IsSpace(s[0]) }

  predicate NoTrailingSpace(s: string) { s == "" || !IsSpace(s[|s| - 1]) }

  predicate Trimmed(s: string) { NoLeadingSpace(s) && NoTrailingSpace(s) }

  lemma {:induction false} RstripMeaning(s: string)
    ensures Rstrip(s) <= s && NoTrailingSpace(Rstrip(s))
    ensures forall i | |Rstrip(s)| <= i < |s| :: IsSpace(s[i])
  {
    if s != "" && IsSpace(s[|s| - 1]) { RstripMeaning(s[..|s| - 1]); }
  }

  lemma {:induction false} LskipMeaning(s: string) returns (k: nat)
    ensures k <= |s| && Lskip(s) == (if k == 0 then s else s[k..]) && NoLeadingSpace(Lskip(s))
    ensures forall i | 0 <= i < k :: IsSpace(s[i])
  {
    k := 0;
    if s != "" && IsSpace(s[0]) {
      var j := LskipMeaning(s[1..]);
      k := 1 + j;
      if j > 0 { assert s[1..][j..] == s[k..]; }
      forall i | 0 <= i < k ensures IsSpace(s[i]) {
        if i > 0 { assert s[i] == s[1..][i - 1]; }
      }
    }
  }

  lemma RstripKeepsStart(s: string)
    requires NoLeadingSpace(s)
    ensures Trimmed(Rstrip(s))
  {
    RstripMeaning(s);
  }

  lemma LskipKeepsEnd(s: string)
    requires NoTrailingSpace(s)
    ensures Trimmed(Lskip(s))
  {
    var k := LskipMeaning(s);
  }

  lemma BodyTrimmed(chunk: string, lineno: nat)
    ensures Trimmed(Body(chunk, lineno))
  {
    var s := chunk[BomLength(chunk, lineno)..];
    RstripMeaning(s);
    LskipKeepsEnd(Rstrip(s));
  }

  /** A name that has been cut to the buffer keeps its first character; it can only end in white
      space by being cut there. */
  predicate NameOk(name: string) {
    NoLeadingSpace(name) && (NoTrailingSpace(name) || |name| == MAX_NAME - 1)
  }

  predicate CallOk(c: Call) { NameOk(c.name) && Trimmed(c.value) && |c.section| < MAX_SECTION }

  ghost predicate ContextOk(ctx: Context) {
    && |ctx.section| < MAX_SECTION && NameOk(ctx.prevName)
    && forall i | 0 <= i < |ctx.calls| :: CallOk(ctx.calls[i])
  }

  lemma PairTrimmed(body: string)
    requires Trimmed(body)
    ensures Trimmed(PairName(body))
    ensures Find(body, "=:") < |body| ==> Trimmed(PairValue(body))
  {
    var e := Find(body, "=:");
    assert NoLeadingSpace(body[..e]);
    RstripKeepsStart(body[..e]);
    if e < |body| {
      var rest := body[e + 1..];
      var k := LskipMeaning(rest[..Find(rest, "")]);
      RstripKeepsStart(Lskip(rest[..Find(rest, "")]));
    }
  }

  lemma LineTrimmed(ctx: Context, chunk: string, lineno: nat, handler: Handler)
    requires ContextOk(ctx)
    ensures ContextOk(Line(ctx, chunk, lineno, handler).context)
  {
    BodyTrimmed(chunk, lineno);
    PairTrimmed(Body(chunk, lineno));
  }

  /** For every text: every section name fits its buffer, every value handed out is trimmed, and
      every name is trimmed unless it is the 49-character stump of a longer name repeated for a
      continuation line. */
  lemma {:induction false} CallsAreTrimmed(r: Result, chunks: seq<string>, handler: Handler)
    requires ContextOk(r.context)
    ensures ContextOk(Run(r, chunks, handler).context)
    decreases |chunks|
  {
    if chunks != [] {
      LineTrimmed(r.context, chunks[0], r.lineno + 1, handler);
      CallsAreTrimmed(Step(r, chunks[0], handler), chunks[1..], handler);
    }
  }

  /** The stump is trimmed exactly when the long name has no white space at its 49th character. */
  lemma StumpTrimmedIff(name: string)
    requires Trimmed(name)
    ensures Trimmed(Truncated(name, MAX_NAME))
            <==> !(|name| >= MAX_NAME && IsSpace(name[MAX_NAME - 2]))
  {
  }

  // ----- When all names are trimmed -----

  /** The name of the last pair, in full, that a continuation line would continue: none at the start
      and after a section header. */
  function NextName(name: string, body: string, indented: bool): string {
    if body == "" || body[0] in ";#" || (name != "" && indented) then name
    else if body[0] == '[' then
      var e := Find(body[1..], "]");
      if e < |body[1..]| && body[1..][e] == ']' then "" else name
    else
      var e := Find(body, "=:");
      if e < |body| && body[e] in "=:" then PairName(body) else name
  }

  function LastName(chunks: seq<string>): string {
    if chunks == [] then "" else
      var chunk := chunks[|chunks| - 1];
      NextName(LastName(chunks[..|chunks| - 1]), Body(chunk, |chunks|), Indented(chunk, |chunks|))
  }

  /** Chunk `i` continues the pair in front of it. */
  predicate Continues(chunks: seq<string>, i: int)
    requires 0 <= i < |chunks|
  {
    var body := Body(chunks[i], i + 1);
    body != "" && body[0] !in ";#" && LastName(chunks[..i]) != "" && Indented(chunks[i], i + 1)
  }

  /** A name of at least 50 characters with white space as its 49th. */
  predicate CutAtSpace(name: string) { |name| >= MAX_NAME && IsSpace(name[MAX_NAME - 2]) }

  /** Chunk `i` continues a pair whose name was cut behind white space. */
  predicate Stumps(chunks: seq<string>, i: int)
    requires 0 <= i < |chunks|
  {
    Continues(chunks, i) && CutAtSpace(LastName(chunks[..i]))
  }

  predicate NamesTrimmed(calls: seq<Call>) { forall i | 0 <= i < |calls| :: Trimmed(calls[i].name) }

  /** What the buffer keeps of that name. */
  lemma LineKeepsName(ctx: Context, name: string, body: string, indented: bool, handler: Handler)
    requires ctx.prevName == Truncated(name, MAX_NAME) && Trimmed(name) && Trimmed(body)
    ensures BodyLine(ctx, body, indented, handler).context.prevName
            == Truncated(NextName(name, body, indented), MAX_NAME)
    ensures Trimmed(NextName(name, body, indented))
  {
    PairTrimmed(body);
  }

  /** The one call a line may make. */
  lemma LineNames(ctx: Context, name: string, body: string, indented: bool, handler: Handler)
    requires ctx.prevName == Truncated(name, MAX_NAME) && Trimmed(name) && Trimmed(body)
    ensures var stumps := body != "" && body[0] !in ";#" && name != "" && indented && CutAtSpace(name);
            NamesTrimmed(BodyLine(ctx, body, indented, handler).context.calls) <==> NamesTrimmed(ctx.calls) && !stumps
  {
    PairTrimmed(body);
    StumpTrimmedIff(name);
    var calls := BodyLine(ctx, body, indented, handler).context.calls;
    if calls != ctx.calls {
      assert calls == ctx.calls + [calls[|ctx.calls|]];
      NamesAppend(ctx.calls, calls[|ctx.calls|]);
    }
  }

  lemma NamesAppend(calls: seq<Call>, c: Call)
    ensures NamesTrimmed(calls + [c]) <==> NamesTrimmed(calls) && Trimmed(c.name)
  {
    assert forall i | 0 <= i < |calls| :: (calls + [c])[i] == calls[i];
    assert (calls + [c])[|calls|] == c;
  }

  ghost predicate SomeStump(chunks: seq<string>) { exists i | 0 <= i < |chunks| :: Stumps(chunks, i) }

  lemma StumpInFront(chunks: seq<string>)
    requires chunks != []
    ensures SomeStump(chunks) <==> SomeStump(chunks[..|chunks| - 1]) || Stumps(chunks, |chunks| - 1)
  {
    var n := |chunks| - 1;
    forall i | 0 <= i < n ensures Stumps(chunks[..n], i) <==> Stumps(chunks, i) {
      assert chunks[..n][..i] == chunks[..i];
    }
  }

  /** What is known about the names after the lines `chunks`. */
  ghost predicate NamesKnown(r: Result, chunks: seq<string>) {
    && r.lineno == |chunks| && r.context.prevName == Truncated(LastName(chunks), MAX_NAME) && Trimmed(LastName(chunks))
    && (NamesTrimmed(r.context.calls) <==> !SomeStump(chunks))
  }

  lemma NamesStep(r: Result, chunks: seq<string>, handler: Handler)
    requires chunks != [] && NamesKnown(r, chunks[..|chunks| - 1])
    ensures NamesKnown(Step(r, chunks[|chunks| - 1], handler), chunks)
  {
    var n := |chunks| - 1;
    BodyTrimmed(chunks[n], n + 1);
    LineKeepsName(r.context, LastName(chunks[..n]), Body(chunks[n], n + 1), Indented(chunks[n], n + 1), handler);
    LineNames(r.context, LastName(chunks[..n]), Body(chunks[n], n + 1), Indented(chunks[n], n + 1), handler);
    StumpInFront(chunks);
  }

  lemma {:induction false} NamesTrimmedIff(chunks: seq<string>, handler: Handler)
    ensures NamesKnown(Run(START, chunks, handler), chunks)
    decreases |chunks|
  {
    if chunks != [] {
      var n := |chunks| - 1;
      NamesTrimmedIff(chunks[..n], handler);
      assert chunks == chunks[..n] + [chunks[n]];
      RunAppend(START, chunks[..n], chunks[n], handler);
      NamesStep(Run(START, chunks[..n], handler), chunks, handler);
    }
  }

  /** For every text: all names handed to the handler are trimmed if and only if no line continues a
      pair whose name has at least 50 characters and white space as its 49th. */
  lemma TextNamesTrimmedIff(text: string, handler: Handler)
    ensures NamesTrimmed(Parse(text, handler).context.calls)
       <==> !exists i | 0 <= i < |Chunks(text)| :: Stumps(Chunks(text), i)
  {
    NamesTrimmedIff(Chunks(text), handler);
  }
}
