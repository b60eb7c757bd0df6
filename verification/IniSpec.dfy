/** What the INI parser does with a text, on strings: chunks, lines, handler calls and the error
    line. The flags have their default values: multi-line values, a BOM, inline comments after
    white space and a 200-byte stack buffer are on; stopping at the first error is off. */
module IniSpec {

  const MAX_LINE := 200
  const MAX_SECTION := 50
  const MAX_NAME := 50
  const BOM: string := "\U{EF}\U{BB}\U{BF}"

  datatype Call = Call(section: string, name: string, value: string)

  /** The handler may keep state: its answer depends on all the calls so far, this one last. */
  type Handler = seq<Call> -> bool

  // ----- String helpers -----

  predicate IsSpace(c: char) { c == ' ' || '\t' <= c <= '\r' }

  function Rstrip(s: string): string {
    if s != "" && IsSpace(s[|s| - 1]) then Rstrip(s[..|s| - 1]) else s
  }

  function Lskip(s: string): string {
    if s != "" && IsSpace(s[0]) then Lskip(s[1..]) else s
  }

  /** The first position from `k` on that holds one of `chars`, or a `;` behind white space, or
      the end of the string. */
  function FindFrom(s: string, chars: string, k: nat, wasSpace: bool): (e: nat)
    requires k <= |s|
    ensures k <= e <= |s|
    decreases |s| - k
  {
    if k == |s| || s[k] in chars || (wasSpace && s[k] == ';') then k
    else FindFrom(s, chars, k + 1, IsSpace(s[k]))
  }

  function Find(s: string, chars: string): (e: nat)
    ensures e <= |s|
  {
    FindFrom(s, chars, 0, false)
  }

  /** What `strncpy0` leaves in a buffer of `size` bytes. */
  function Truncated(s: string, size: nat): string
    requires size > 0
  {
    if |s| < size then s else s[..size - 1]
  }

  // ----- Chunks -----

  /** How many characters the reader takes: up to and including a newline, at most `n`. */
  function ChunkLength(text: string, n: nat): (k: nat)
    ensures k <= |text| && k <= n
    ensures text != "" && n > 0 ==> k > 0
  {
    if n == 0 || text == "" then 0
    else if text[0] == '\n' then 1
    else 1 + ChunkLength(text[1..], n - 1)
  }

  function Chunks(text: string): seq<string> {
    if text == "" then [] else
      var k := ChunkLength(text, MAX_LINE - 1);
      [text[..k]] + Chunks(text[k..])
  }

  function Flatten(chunks: seq<string>): string {
    if chunks == [] then "" else chunks[0] + Flatten(chunks[1..])
  }

  // ----- One line -----

  datatype Context = Context(section: string, prevName: string, calls: seq<Call>)

  /** The context after a line, and whether the line was bad: malformed, or refused. */
  datatype LineResult = LineResult(context: Context, bad: bool)

  function BomLength(chunk: string, lineno: nat): (n: nat)
    ensures n <= |chunk|
  {
    if lineno == 1 && BOM <= chunk then 3 else 0
  }

  /** The chunk without BOM and surrounding white space. */
  function Body(chunk: string, lineno: nat): string {
    Lskip(Rstrip(chunk[BomLength(chunk, lineno)..]))
  }

  /** Whether anything was skipped in front of the body. */
  predicate Indented(chunk: string, lineno: nat) {
    BomLength(chunk, lineno) + |Rstrip(chunk[BomLength(chunk, lineno)..])| > |Body(chunk, lineno)|
  }

  function Report(ctx: Context, name: string, value: string, handler: Handler): LineResult {
    var calls := ctx.calls + [Call(ctx.section, name, value)];
    LineResult(ctx.(calls := calls), !handler(calls))
  }

  function SectionLine(ctx: Context, body: string): LineResult
    requires body != ""
  {
    var rest := body[1..];
    var e := Find(rest, "]");
    if e < |rest| && rest[e] == ']'
    then LineResult(Context(Truncated(rest[..e], MAX_SECTION), "", ctx.calls), false)
    else LineResult(ctx, true)
  }

  function PairName(body: string): string { Rstrip(body[..Find(body, "=:")]) }

  function PairValue(body: string): string
    requires Find(body, "=:") < |body|
  {
    var rest := body[Find(body, "=:") + 1..];
    Rstrip(Lskip(rest[..Find(rest, "")]))
  }

  function PairLine(ctx: Context, body: string, handler: Handler): LineResult {
    var e := Find(body, "=:");
    if e < |body| && body[e] in "=:"
    then Report(ctx.(prevName := Truncated(PairName(body), MAX_NAME)), PairName(body), PairValue(body), handler)
    else LineResult(ctx, true)
  }

  /** What a line does, by its body. */
  function BodyLine(ctx: Context, body: string, indented: bool, handler: Handler): LineResult {
    if body == "" || body[0] in ";#" then LineResult(ctx, false)
    else if ctx.prevName != "" && indented then Report(ctx, ctx.prevName, body, handler)
    else if body[0] == '[' then SectionLine(ctx, body)
    else PairLine(ctx, body, handler)
  }

  function Line(ctx: Context, chunk: string, lineno: nat, handler: Handler): LineResult {
    BodyLine(ctx, Body(chunk, lineno), Indented(chunk, lineno), handler)
  }

  // ----- The whole text -----

  datatype Result = Result(context: Context, lineno: nat, error: nat)

  function Step(r: Result, chunk: string, handler: Handler): Result {
    var line := Line(r.context, chunk, r.lineno + 1, handler);
    Result(line.context, r.lineno + 1, if line.bad && r.error == 0 then r.lineno + 1 else r.error)
  }

  function Run(r: Result, chunks: seq<string>, handler: Handler): Result
    decreases |chunks|
  {
    if chunks == [] then r else Run(Step(r, chunks[0], handler), chunks[1..], handler)
  }

  const START := Result(Context("", "", []), 0, 0)

  /** `ini_parse_string`: the value returned is the `error` field. */
  function Parse(text: string, handler: Handler): Result { Run(START, Chunks(text), handler) }
}
