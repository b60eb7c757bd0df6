/** The INI parser as the repository runs it: one line buffer that is cut up in place, two small
    buffers for the current section and the previous name, and a chunking string reader. Every
    method is proved against the string functions of `IniSpec`. */
module IniParser {
  import S = IniSpec
  import M = IniMeaning

  // ----- C strings in buffers -----

  /** The NUL-terminated string at index `i` of the buffer is `t`. */
  ghost predicate Holds(a: seq<char>, i: int, t: string) {
    && 0 <= i && i + |t| < |a| && a[i..i + |t|] == t && a[i + |t|] == '\0' && '\0' !in t
  }

  /** The buffer contents from `i` up to the first NUL. */
  function CString(a: seq<char>, i: nat): string
    requires i <= |a|
    decreases |a| - i
  {
    if i == |a| || a[i] == '\0' then "" else [a[i]] + CString(a, i + 1)
  }

  lemma {:induction false} HoldsCString(a: seq<char>, i: nat, t: string)
    requires Holds(a, i, t)
    ensures CString(a, i) == t
    decreases |t|
  {
    if t != "" {
      assert a[i] == t[0];
      HoldsSuffix(a, i, t, 1);
      HoldsCString(a, i + 1, t[1..]);
    }
  }

  lemma HoldsSuffix(a: seq<char>, i: nat, t: string, k: nat)
    requires Holds(a, i, t) && k <= |t|
    ensures Holds(a, i + k, t[k..])
  {
    assert a[i + k..i + |t|] == a[i..i + |t|][k..];
  }

  lemma HoldsAt(a: seq<char>, i: nat, t: string, k: nat)
    requires Holds(a, i, t) && k <= |t|
    ensures a[i + k] == if k < |t| then t[k] else '\0'
    ensures a[i + k] == '\0' <==> k == |t|
  {
    assert k < |t| ==> a[i + k] == a[i..i + |t|][k];
  }

  /** A NUL written inside the string cuts it. */
  lemma HoldsCut(a: seq<char>, b: seq<char>, i: nat, t: string, k: nat)
    requires Holds(a, i, t) && k <= |t| && b == a[i + k := '\0']
    ensures Holds(b, i, t[..k])
  {
    assert b[i..i + k] == a[i..i + |t|][..k];
  }

  /** A string is not affected by changes outside it. */
  lemma HoldsFrame(a: seq<char>, b: seq<char>, i: nat, t: string)
    requires Holds(a, i, t) && |b| == |a|
    requires forall k | i <= k <= i + |t| :: b[k] == a[k]
    ensures Holds(b, i, t)
  {
    assert b[i..i + |t|] == a[i..i + |t|];
  }

  // ----- The helpers -----

  method StrLen(s: array<char>, i: nat, ghost t: string) returns (n: nat)
    requires Holds(s[..], i, t)
    ensures n == |t|
  {
    n := 0;
    HoldsAt(s[..], i, t, 0);
    while s[i + n] != '\0'
      invariant 0 <= n <= |t| && i + n < s.Length
      invariant s[i + n] == '\0' <==> n == |t|
      decreases |t| - n
    {
      n := n + 1;
      HoldsAt(s[..], i, t, n);
    }
  }

  method Rstrip(s: array<char>, i: nat, ghost t: string)
    requires Holds(s[..], i, t)
    modifies s
    ensures Holds(s[..], i, S.Rstrip(t))
    ensures forall k | 0 <= k < s.Length && !(i <= k < i + |t|) :: s[k] == old(s[k])
  {
    var n := StrLen(s, i, t);
    var p := i + n;
    ghost var rest := t;
    assert t[..|t|] == t;
    while p > i && S.IsSpace(s[p - 1])
      invariant i <= p <= i + |t| && |rest| == p - i
      invariant Holds(s[..], i, rest) && S.Rstrip(rest) == S.Rstrip(t)
      invariant forall k | 0 <= k < s.Length && !(i <= k < i + |t|) :: s[k] == old(s[k])
    {
      ghost var before := s[..];
      HoldsAt(before, i, rest, |rest| - 1);
      p := p - 1;
      s[p] := '\0';
      HoldsCut(before, s[..], i, rest, |rest| - 1);
      rest := rest[..|rest| - 1];
    }
    if p > i { HoldsAt(s[..], i, rest, |rest| - 1); }
  }

  method Lskip(s: array<char>, i: nat, ghost t: string) returns (j: nat)
    requires Holds(s[..], i, t)
    ensures Holds(s[..], j, S.Lskip(t)) && j == i + |t| - |S.Lskip(t)|
  {
    j := i;
    ghost var rest := t;
    HoldsAt(s[..], j, rest, 0);
    while s[j] != '\0' && S.IsSpace(s[j])
      invariant Holds(s[..], j, rest) && S.Lskip(rest) == S.Lskip(t) && j == i + |t| - |rest|
      invariant s[j] == if rest == "" then '\0' else rest[0]
      decreases |rest|
    {
      HoldsAt(s[..], j, rest, 0);
      HoldsSuffix(s[..], j, rest, 1);
      j := j + 1;
      rest := rest[1..];
      HoldsAt(s[..], j, rest, 0);
    }
    HoldsAt(s[..], j, rest, 0);
  }

  /** An empty `chars` stands for the null pointer: only comments and the end stop the search. */
  method FindCharsOrComment(s: array<char>, i: nat, chars: string, ghost t: string) returns (e: nat)
    requires Holds(s[..], i, t)
    ensures e == i + S.Find(t, chars) && e < s.Length
    ensures s[e] == '\0' <==> e == i + |t|
    ensures e < i + |t| ==> s[e] == t[e - i]
    ensures M.FirstStop(t, chars, e - i)
  {
    M.FindIsFirstStop(t, chars);
    var wasSpace := false;
    var k := 0;
    HoldsAt(s[..], i, t, 0);
    while s[i + k] != '\0' && s[i + k] !in chars && !(wasSpace && s[i + k] == ';')
      invariant 0 <= k <= |t| && i + k < s.Length
      invariant S.Find(t, chars) == S.FindFrom(t, chars, k, wasSpace)
      invariant s[i + k] == if k < |t| then t[k] else '\0'
      decreases |t| - k
    {
      HoldsAt(s[..], i, t, k);
      wasSpace := S.IsSpace(s[i + k]);
      k := k + 1;
      HoldsAt(s[..], i, t, k);
    }
    HoldsAt(s[..], i, t, k);
    e := i + k;
  }

  method StrNCpy0(dest: array<char>, src: array<char>, i: nat, ghost t: string)
    requires dest != src && dest.Length > 0 && Holds(src[..], i, t)
    modifies dest
    ensures Holds(dest[..], 0, S.Truncated(t, dest.Length))
  {
    var size := dest.Length;
    var k := 0;
    HoldsAt(src[..], i, t, 0);
    while k < size - 1 && src[i + k] != '\0'
      invariant 0 <= k <= |t| && k <= size - 1 && i + k < src.Length
      invariant Holds(src[..], i, t) && (src[i + k] == '\0' <==> k == |t|)
      invariant dest[..k] == t[..k]
    {
      HoldsAt(src[..], i, t, k);
      dest[k] := src[i + k];
      k := k + 1;
      HoldsAt(src[..], i, t, k);
      assert t[..k] == t[..k - 1] + [t[k - 1]];
    }
    dest[k] := '\0';
    assert S.Truncated(t, size) == t[..k];
    assert dest[0..k] == dest[..k];
  }

  // ----- The reader -----

  class StringReader {
    const text: string
    var pos: nat

    ghost predicate Valid()
      reads this
    {
      pos <= |text| && '\0' !in text
    }

    constructor (text: string)
      requires '\0' !in text
      ensures Valid() && this.text == text && pos == 0
    {
      this.text := text;
      pos := 0;
    }

    /** `ini_reader_string`: the fgets of strings. */
    method Read(str: array<char>, num: int) returns (ok: bool)
      requires Valid() && num <= str.Length
      modifies this`pos, str
      ensures Valid()
      ensures ok <==> old(pos) < |text| && num >= 2
      ensures ok ==> pos == old(pos) + S.ChunkLength(text[old(pos)..], num - 1)
                     && Holds(str[..], 0, text[old(pos)..pos])
      ensures !ok ==> pos == old(pos) && str[..] == old(str[..])
    {
      if pos == |text| || num < 2 {
        return false;
      }
      ghost var start := pos;
      var strp := 0;
      var n := num;
      while n > 1 && pos < |text|
        invariant start <= pos <= |text| && strp == pos - start && n == num - strp >= 1
        invariant str[..strp] == text[start..pos]
        invariant S.ChunkLength(text[start..], num - 1) == strp + S.ChunkLength(text[pos..], n - 1)
        decreases |text| - pos
      {
        var c := text[pos];
        assert text[pos..][1..] == text[pos + 1..];
        pos := pos + 1;
        str[strp] := c;
        strp := strp + 1;
        assert text[start..pos] == text[start..pos - 1] + [c];
        if c == '\n' {
          break;
        }
        n := n - 1;
      }
      assert S.ChunkLength(text[start..], num - 1) == strp;
      str[strp] := '\0';
      assert str[0..strp] == str[..strp];
      return true;
    }
  }

  // ----- Lines and texts -----

  /** The two small buffers hold the section and the previous name of the context. */
  ghost predicate Buffers(section: array<char>, prevName: array<char>, ctx: S.Context)
    reads section, prevName
  {
    && section.Length == S.MAX_SECTION && prevName.Length == S.MAX_NAME
    && Holds(section[..], 0, ctx.section) && Holds(prevName[..], 0, ctx.prevName)
  }

  /** The "[section]" branch; `start` is where the body begins. */
  method SectionLine(line: array<char>, start: nat, section: array<char>, prevName: array<char>,
                     ghost ctx: S.Context, ghost body: string)
    returns (bad: bool)
    requires line != section && line != prevName && section != prevName
    requires Holds(line[..], start, body) && body != "" && Buffers(section, prevName, ctx)
    modifies line, section, prevName
    ensures bad == S.SectionLine(ctx, body).bad
    ensures Buffers(section, prevName, S.SectionLine(ctx, body).context)
  {
    HoldsSuffix(line[..], start, body, 1);
    var end := FindCharsOrComment(line, start + 1, "]", body[1..]);
    if line[end] == ']' {
      ghost var before := line[..];
      line[end] := '\0';
      HoldsCut(before, line[..], start + 1, body[1..], end - start - 1);
      StrNCpy0(section, line, start + 1, body[1..][..end - start - 1]);
      prevName[0] := '\0';
      bad := false;
    } else {
      bad := true;
    }
  }

  /** Hands a name and a value in the line buffer to the handler. */
  method ReportPair(line: array<char>, start: nat, value: nat, section: array<char>, calls: seq<S.Call>,
                    handler: S.Handler, ghost current: string, ghost name: string, ghost text: string)
    returns (newCalls: seq<S.Call>, bad: bool)
    requires Holds(line[..], start, name) && Holds(line[..], value, text) && Holds(section[..], 0, current)
    ensures newCalls == calls + [S.Call(current, name, text)] && bad == !handler(newCalls)
  {
    HoldsCString(line[..], start, name);
    HoldsCString(line[..], value, text);
    HoldsCString(section[..], 0, current);
    newCalls := calls + [S.Call(CString(section[..], 0), CString(line[..], start), CString(line[..], value))];
    bad := !handler(newCalls);
  }

  /** The name[=:]value branch. */
  method PairLine(line: array<char>, start: nat, section: array<char>, prevName: array<char>,
                  calls: seq<S.Call>, handler: S.Handler, ghost ctx: S.Context, ghost body: string)
    returns (newCalls: seq<S.Call>, bad: bool)
    requires line != section && line != prevName && section != prevName
    requires Holds(line[..], start, body) && Buffers(section, prevName, ctx) && calls == ctx.calls
    modifies line, prevName
    ensures newCalls == S.PairLine(ctx, body, handler).context.calls
    ensures bad == S.PairLine(ctx, body, handler).bad
    ensures Buffers(section, prevName, S.PairLine(ctx, body, handler).context)
  {
    var end := FindCharsOrComment(line, start, "=:", body);
    if line[end] == '=' || line[end] == ':' {
      ghost var k, name := end - start, S.PairName(body);
      ghost var rest := body[k + 1..];
      HoldsSuffix(line[..], start, body, k + 1);
      CutName(line, start, end, body);
      var value := TakeValue(line, start, end + 1, name, rest);
      StrNCpy0(prevName, line, start, name);
      newCalls, bad := ReportPair(line, start, value, section, calls, handler, ctx.section, name, S.PairValue(body));
    } else {
      newCalls, bad := calls, true;
    }
  }

  /** Ends the name at the separator and strips it; what follows stays where it is. */
  method CutName(line: array<char>, start: nat, end: nat, ghost body: string)
    requires Holds(line[..], start, body) && end == start + S.Find(body, "=:") && end < start + |body|
    modifies line
    ensures Holds(line[..], start, S.PairName(body)) && start + |S.PairName(body)| <= end
    ensures Holds(line[..], end + 1, body[end + 1 - start..])
  {
    ghost var k := end - start;
    ghost var before := line[..];
    HoldsSuffix(before, start, body, k + 1);
    line[end] := '\0';
    HoldsCut(before, line[..], start, body, k);
    Rstrip(line, start, body[..k]);
    HoldsFrame(before, line[..], end + 1, body[k + 1..]);
    RstripShortens(body[..k]);
  }

  /** Ends the value at an inline comment and strips it on both sides. */
  method TakeValue(line: array<char>, start: nat, from: nat, ghost name: string, ghost rest: string)
      returns (value: nat)
    requires Holds(line[..], from, rest) && Holds(line[..], start, name) && start + |name| < from
    modifies line
    ensures Holds(line[..], value, S.Rstrip(S.Lskip(rest[..S.Find(rest, "")]))) && Holds(line[..], start, name)
  {
    var end := FindCharsOrComment(line, from, "", rest);
    ghost var before := line[..];
    ghost var raw := rest[..S.Find(rest, "")];
    assert rest[..|rest|] == rest;
    if line[end] != '\0' {
      line[end] := '\0';
      HoldsCut(before, line[..], from, rest, end - from);
      HoldsFrame(before, line[..], start, name);
    }
    LskipShortens(raw);
    value := Lskip(line, from, raw);
    before := line[..];
    Rstrip(line, value, S.Lskip(raw));
    HoldsFrame(before, line[..], start, name);
  }

  lemma {:induction false} RstripShortens(t: string)
    ensures |S.Rstrip(t)| <= |t|
  {
    if t != "" && S.IsSpace(t[|t| - 1]) { RstripShortens(t[..|t| - 1]); }
  }

  lemma {:induction false} LskipShortens(t: string)
    ensures |S.Lskip(t)| <= |t|
  {
    if t != "" && S.IsSpace(t[0]) { LskipShortens(t[1..]); }
  }

  /** The branch for an indented line: one more value for the previous name. */
  method ContinuePair(line: array<char>, start: nat, section: array<char>, prevName: array<char>,
                      calls: seq<S.Call>, handler: S.Handler, ghost ctx: S.Context, ghost body: string)
    returns (newCalls: seq<S.Call>, bad: bool)
    requires Holds(line[..], start, body) && Buffers(section, prevName, ctx)
    ensures newCalls == calls + [S.Call(ctx.section, ctx.prevName, body)] && bad == !handler(newCalls)
  {
    HoldsCString(line[..], start, body);
    HoldsCString(section[..], 0, ctx.section);
    HoldsCString(prevName[..], 0, ctx.prevName);
    newCalls := calls + [S.Call(CString(section[..], 0), CString(prevName[..], 0), CString(line[..], start))];
    bad := !handler(newCalls);
  }

  /** Skips a byte order mark and strips the line; it is indented when anything in front was skipped. */
  method StartOfBody(line: array<char>, lineno: nat, ghost chunk: string) returns (start: nat)
    requires line.Length == S.MAX_LINE && Holds(line[..], 0, chunk)
    modifies line
    ensures Holds(line[..], start, S.Body(chunk, lineno)) && (start > 0 <==> S.Indented(chunk, lineno))
  {
    start := 0;
    BomCheck(line[..], chunk);
    if lineno == 1 && line[0] == '\U{EF}' && line[1] == '\U{BB}' && line[2] == '\U{BF}' {
      start := 3;
    }
    ghost var b := S.BomLength(chunk, lineno);
    HoldsSuffix(line[..], 0, chunk, b);
    Rstrip(line, start, chunk[b..]);
    start := Lskip(line, start, S.Rstrip(chunk[b..]));
    LskipShortens(S.Rstrip(chunk[b..]));
  }

  /** One pass of the loop in `ini_parse_stream`. */
  method ProcessLine(line: array<char>, lineno: nat, section: array<char>, prevName: array<char>,
                     calls: seq<S.Call>, handler: S.Handler, ghost ctx: S.Context, ghost chunk: string)
    returns (newCalls: seq<S.Call>, bad: bool)
    requires line != section && line != prevName && section != prevName && line.Length == S.MAX_LINE
    requires Holds(line[..], 0, chunk) && Buffers(section, prevName, ctx) && calls == ctx.calls
    modifies line, section, prevName
    ensures newCalls == S.Line(ctx, chunk, lineno, handler).context.calls
    ensures bad == S.Line(ctx, chunk, lineno, handler).bad
    ensures Buffers(section, prevName, S.Line(ctx, chunk, lineno, handler).context)
  {
    ghost var body := S.Body(chunk, lineno);
    var start := StartOfBody(line, lineno, chunk);
    HoldsAt(line[..], start, body, 0);
    HoldsAt(prevName[..], 0, ctx.prevName, 0);
    newCalls, bad := calls, false;
    if line[start] == '\0' || line[start] in ";#" {
      // strchr also finds the terminator, so a blank line counts as a comment
    } else if prevName[0] != '\0' && start > 0 {
      newCalls, bad := ContinuePair(line, start, section, prevName, calls, handler, ctx, body);
    } else if line[start] == '[' {
      bad := SectionLine(line, start, section, prevName, ctx, body);
    } else {
      newCalls, bad := PairLine(line, start, section, prevName, calls, handler, ctx, body);
    }
  }

  lemma BomCheck(line: seq<char>, chunk: string)
    requires Holds(line, 0, chunk) && |line| >= 3
    ensures S.BOM <= chunk <==> line[0] == '\U{EF}' && line[1] == '\U{BB}' && line[2] == '\U{BF}'
  {
    HoldsAt(line, 0, chunk, 0);
    if |chunk| >= 1 { HoldsAt(line, 0, chunk, 1); }
    if |chunk| >= 2 { HoldsAt(line, 0, chunk, 2); }
    if |chunk| >= 3 { assert chunk[..3] == [line[0], line[1], line[2]]; }
  }

  /** The parser variables stand for the result `r`. */
  ghost predicate Stands(r: S.Result, lineno: nat, error: nat, calls: seq<S.Call>, section: array<char>,
      prevName: array<char>)
    reads section, prevName
  {
    r.context.calls == calls && r.lineno == lineno && r.error == error && Buffers(section, prevName, r.context)
  }

  /** One line read, counted, processed and noted. */
  method NextLine(line: array<char>, lineno: nat, error: nat, section: array<char>, prevName: array<char>,
                  calls: seq<S.Call>, handler: S.Handler, ghost r: S.Result, ghost chunk: string,
                  ghost more: seq<string>)
    returns (newError: nat, newCalls: seq<S.Call>, ghost next: S.Result)
    requires line != section && line != prevName && section != prevName && line.Length == S.MAX_LINE
    requires lineno > 0 && Holds(line[..], 0, chunk) && Stands(r, lineno - 1, error, calls, section, prevName)
    modifies line, section, prevName
    ensures Stands(next, lineno, newError, newCalls, section, prevName)
    ensures S.Run(r, [chunk] + more, handler) == S.Run(next, more, handler)
  {
    var bad;
    newCalls, bad := ProcessLine(line, lineno, section, prevName, calls, handler, r.context, chunk);
    newError := if bad && error == 0 then lineno else error;
    next := S.Step(r, chunk, handler);
    assert ([chunk] + more)[1..] == more;
  }

  /** The next line of the stream, if there is one. */
  method NextOfStream(ctx: StringReader, line: array<char>, lineno: nat, error: nat, section: array<char>,
                      prevName: array<char>, calls: seq<S.Call>, handler: S.Handler, ghost r: S.Result)
    returns (ok: bool, newError: nat, newCalls: seq<S.Call>, ghost next: S.Result)
    requires line != section && line != prevName && section != prevName && line.Length == S.MAX_LINE
    requires ctx.Valid() && Stands(r, lineno, error, calls, section, prevName)
    modifies ctx`pos, line, section, prevName
    ensures ctx.Valid() && (ok <==> old(ctx.pos) < |ctx.text|)
    ensures ok ==> ctx.pos > old(ctx.pos) && Stands(next, lineno + 1, newError, newCalls, section, prevName)
    ensures ok ==> S.Run(r, S.Chunks(ctx.text[old(ctx.pos)..]), handler)
                   == S.Run(next, S.Chunks(ctx.text[ctx.pos..]), handler)
    ensures !ok ==> ctx.pos == old(ctx.pos) && newError == error && newCalls == calls && next == r
  {
    newError, newCalls, next := error, calls, r;
    ghost var was := ctx.pos;
    ok := ctx.Read(line, S.MAX_LINE);
    if ok {
      FirstChunk(ctx.text, was, ctx.pos);
      newError, newCalls, next := NextLine(line, lineno + 1, error, section, prevName, calls, handler, r,
        ctx.text[was..ctx.pos], S.Chunks(ctx.text[ctx.pos..]));
    }
  }

  /** `ini_parse_stream`, for the string reader. */
  method ParseStream(ctx: StringReader, handler: S.Handler) returns (error: nat, calls: seq<S.Call>)
    requires ctx.Valid() && ctx.pos == 0
    modifies ctx`pos
    ensures error == S.Parse(ctx.text, handler).error
    ensures calls == S.Parse(ctx.text, handler).context.calls
  {
    var line := new char[S.MAX_LINE];
    var section := new char[S.MAX_SECTION];
    var prevName := new char[S.MAX_NAME];
    section[0], prevName[0] := '\0', '\0';
    var lineno := 0;
    error, calls := 0, [];
    ghost var r, whole := S.START, S.Parse(ctx.text, handler);
    assert ctx.text[0..] == ctx.text;
    var ok := true;
    while ok
      invariant fresh(line) && fresh(section) && fresh(prevName) && ctx.Valid() && line.Length == S.MAX_LINE
      invariant ok ==> Stands(r, lineno, error, calls, section, prevName)
      invariant S.Run(r, S.Chunks(ctx.text[ctx.pos..]), handler) == whole
      invariant !ok ==> ctx.pos == |ctx.text| && r.error == error && r.context.calls == calls
      decreases ok, |ctx.text| - ctx.pos
    {
      ok, error, calls, r := NextOfStream(ctx, line, lineno, error, section, prevName, calls, handler, r);
      if ok {
        lineno := lineno + 1;
      }
    }
    assert ctx.text[ctx.pos..] == "";
  }

  /** `ini_parse_string`. */
  method ParseString(text: string, handler: S.Handler) returns (error: nat, calls: seq<S.Call>)
    requires '\0' !in text
    ensures error == S.Parse(text, handler).error
    ensures calls == S.Parse(text, handler).context.calls
    ensures M.TextMeans(text, handler, calls, error)
  {
    var ctx := new StringReader(text);
    error, calls := ParseStream(ctx, handler);
    M.ParseIsMeant(text, handler);
  }

  lemma FirstChunk(text: string, was: nat, pos: nat)
    requires was < |text| && pos == was + S.ChunkLength(text[was..], S.MAX_LINE - 1)
    ensures S.Chunks(text[was..]) == [text[was..pos]] + S.Chunks(text[pos..])
  {
    var rest, chunk := text[was..], text[was..pos];
    assert rest[..|chunk|] == chunk && rest[|chunk|..] == text[pos..];
  }
}
