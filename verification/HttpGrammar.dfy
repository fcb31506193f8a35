/** The pure, one-shot form of the request parser of http_conn.cpp, and the grammar it decides. */
module HttpGrammar {
  import opened HttpText
  import opened Wrappers

  datatype Request = Request(url: string, version: string, host: Option<string>, linger: bool)

  /** What has been understood so far: nothing, or a request line and some headers. */
  datatype Progress = Start | Headers(req: Request)

  datatype Verdict = NoRequest | BadRequest | DoRequest(req: Request)

  // ---- lines ----

  datatype LineStatus = LineOpen(checked: nat) | LineBad(checked: nat) | LineOk(next: nat)

  predicate IsBreak(c: char) {
    c == CR || c == LF
  }

  predicate CrLfFree(s: string) {
    CR !in s && LF !in s
  }

  /** The first line-break character at or after `from`, or the end. */
  function FirstBreak(b: string, from: nat): (n: nat)
    requires from <= |b|
    ensures from <= n <= |b| && CrLfFree(b[from..n]) && (n < |b| ==> IsBreak(b[n]))
    decreases |b| - from
  {
    if from == |b| || IsBreak(b[from]) then from
    else
      var n := FirstBreak(b, from + 1);
      assert b[from..n] == [b[from]] + b[from + 1..n];
      n
  }

  function NextLine(b: string, from: nat): (r: LineStatus)
    requires from <= |b|
    ensures r.LineOk? ==> from + 2 <= r.next <= |b| && CrLfFree(b[from..r.next - 2]) && b[r.next - 2..r.next] == CRLF
    ensures r.LineOpen? ==> from <= r.checked <= |b| && (r.checked < |b| ==> r.checked + 1 == |b| && b[r.checked] == CR)
    ensures r.LineBad? ==> from <= r.checked < |b| && IsBreak(b[r.checked])
    ensures !r.LineOk? ==> CrLfFree(b[from..r.checked])
  {
    var n := FirstBreak(b, from);
    if n == |b| then LineOpen(n)
    else if b[n] == LF then LineBad(n)
    else if n + 1 == |b| then LineOpen(n)
    else if b[n + 1] == LF then LineOk(n + 2)
    else LineBad(n)
  }

  // ---- one line ----

  /** The origin-form or absolute-form target (RFC 7230, sections 5.3.1 and 5.3.2). */
  function TargetPath(target: string): Option<string> {
    if SamePrefix(target, "http://", 7) && |target| >= 7 then
      var t := target[7..];
      if Find(t, '/') == |t| then None else Some(t[Find(t, '/')..])
    else if target == [] || target[0] != '/' then None
    else Some(target)
  }

  /** A request line without its verb and the blank behind it. */
  function AfterVerb(rest: string): Option<Request> {
    var r := rest[Span(rest)..];
    var e := Break(r);
    if e == |r| then None else
    var v0 := r[e + 1..];
    var version := v0[Span(v0)..];
    if !SameText(version, "HTTP/1.1") then None else
    match TargetPath(r[..e])
    case None => None
    case Some(url) => Some(Request(url, version, None, false))
  }

  function RequestLine(line: string): Option<Request> {
    var b := Break(line);
    if b == |line| || !SameText(line[..b], "GET") then None else AfterVerb(line[b + 1..])
  }

  function Argument(line: string, n: nat): string
    requires n <= |line|
  {
    line[n + Span(line[n..])..]
  }

  /** The effect of one non-empty header line. `Content-Length` is compared with its terminator, so only a line
      that consists of the bare name matches, and it sets the length to atol("") == 0. */
  function HeaderLine(line: string, r: Request): Request {
    if SamePrefix(line, "Connection:", 11) && |line| >= 11 then
      if SameText(Argument(line, 11), "keep-alive") then r.(linger := true) else r
    else if SamePrefix(line, "Content-Length", 15) then r
    else if SamePrefix(line, "Host:", 5) && |line| >= 5 then r.(host := Some(Argument(line, 5)))
    else r
  }

  function HeaderLines(lines: seq<string>, r: Request): Request {
    if lines == [] then r else HeaderLines(lines[1..], HeaderLine(lines[0], r))
  }

  // ---- the whole input ----

  datatype Parsed = Parsed(verdict: Verdict, pos: nat, st: Progress)

  function Parse(b: string, pos: nat, st: Progress): (p: Parsed)
    requires pos <= |b|
    ensures pos <= p.pos <= |b|
    decreases |b| - pos
  {
    match NextLine(b, pos)
    case LineOk(next) =>
      var line := b[pos..next - 2];
      (match st
       case Start =>
         (match RequestLine(line)
          case None => Parsed(BadRequest, next, st)
          case Some(r) => Parse(b, next, Headers(r)))
       case Headers(r) =>
         if line == [] then Parsed(DoRequest(r), next, st)
         else Parse(b, next, Headers(HeaderLine(line, r))))
    case LineOpen(_) => Parsed(NoRequest, pos, st)
    case LineBad(_) => Parsed(NoRequest, pos, st)
  }

  /** One read of the whole input, one call of process_read. */
  function OneShot(b: string): Verdict {
    Parse(b, 0, Start).verdict
  }

  // ---- more input never changes what was decided ----

  lemma {:induction false} FirstBreakExtends(b: string, c: string, from: nat)
    requires from <= |b| && FirstBreak(b, from) < |b|
    ensures FirstBreak(b + c, from) == FirstBreak(b, from)
    decreases |b| - from
  {
    assert (b + c)[from] == b[from];
    if !IsBreak(b[from]) { FirstBreakExtends(b, c, from + 1); }
  }

  lemma NextLineExtends(b: string, c: string, from: nat)
    requires from <= |b| && NextLine(b, from).LineOk?
    ensures NextLine(b + c, from) == NextLine(b, from)
    ensures var next := NextLine(b, from).next; (b + c)[from..next - 2] == b[from..next - 2]
  {
    FirstBreakExtends(b, c, from);
  }

  lemma {:induction false} ParseExtends(b: string, c: string, pos: nat, st: Progress)
    requires pos <= |b|
    ensures var p := Parse(b, pos, st);
            Parse(b + c, pos, st) == if p.verdict.NoRequest? then Parse(b + c, p.pos, p.st) else p
    decreases |b| - pos
  {
    hide NextLine, RequestLine, HeaderLine;
    var status := NextLine(b, pos);
    if status.LineOk? {
      NextLineExtends(b, c, pos);
      var line := b[pos..status.next - 2];
      if st.Start? && RequestLine(line).Some? {
        ParseExtends(b, c, status.next, Headers(RequestLine(line).value));
      } else if st.Headers? && line != [] {
        ParseExtends(b, c, status.next, Headers(HeaderLine(line, st.req)));
      }
    }
  }

  /** Parsing from the beginning is parsing on from where a prefix of the input left off. */
  lemma {:induction false} ParseComposes(b: string, pos: nat, st: Progress, mid: nat, st': Progress)
    requires pos <= mid <= |b| && Parse(b[..mid], pos, st) == Parsed(NoRequest, mid, st')
    ensures Parse(b, pos, st) == Parse(b, mid, st')
  {
    ParseExtends(b[..mid], b[mid..], pos, st);
    assert b[..mid] + b[mid..] == b;
  }

  /** A verdict, once reached, stands whatever arrives later. */
  lemma VerdictStands(b: string, c: string)
    requires !OneShot(b).NoRequest?
    ensures OneShot(b + c) == OneShot(b)
  {
    ParseExtends(b, c, 0, Start);
  }

  /** A stray CR or LF is final too: the parser stays in front of that line and never answers. */
  lemma BadEndingIsFinal(b: string, c: string)
    requires var p := Parse(b, 0, Start); p.verdict.NoRequest? && NextLine(b, p.pos).LineBad?
    ensures OneShot(b + c) == NoRequest
  {
    hide NextLine, RequestLine, HeaderLine;
    ParseExtends(b, c, 0, Start);
    BadLineExtends(b, c, Parse(b, 0, Start).pos);
  }

  lemma BadLineExtends(b: string, c: string, from: nat)
    requires from <= |b| && NextLine(b, from).LineBad?
    ensures NextLine(b + c, from).LineBad?
  {
    FirstBreakExtends(b, c, from);
    hide FirstBreak, CrLfFree;
  }

  /** The verdict of running the parser after every chunk, until it says something. */
  function Feed(got: string, chunks: seq<string>): Verdict
    decreases |chunks|
  {
    if chunks == [] then NoRequest
    else if OneShot(got + chunks[0]).NoRequest? then Feed(got + chunks[0], chunks[1..])
    else OneShot(got + chunks[0])
  }

  function Flatten(chunks: seq<string>): string {
    if chunks == [] then [] else chunks[0] + Flatten(chunks[1..])
  }

  /** Split independence: however the input is cut into reads, the verdict and its strings are those of one read. */
  lemma {:induction false} SplitIndependence(got: string, chunks: seq<string>)
    requires OneShot(got).NoRequest?
    ensures Feed(got, chunks) == OneShot(got + Flatten(chunks))
    decreases |chunks|
  {
    hide OneShot;
    if chunks == [] {
      assert got + [] == got;
    } else {
      var rest := Flatten(chunks[1..]);
      assert got + (chunks[0] + rest) == got + chunks[0] + rest;
      if OneShot(got + chunks[0]).NoRequest? {
        SplitIndependence(got + chunks[0], chunks[1..]);
      } else {
        VerdictStands(got + chunks[0], rest);
      }
    }
  }

  // ---- the grammar ----

  ghost predicate IsTarget(target: string, url: string) {
    && url != [] && url[0] == '/'
    && if |target| >= 7 && SameWord(target[..7], "http://")
       then exists host :: '/' !in host && target == target[..7] + host + url
       else target == url
  }

  /** GET, blanks, target, blanks, HTTP/1.1, the words in any letter case. */
  ghost predicate IsRequestLine(line: string, url: string, version: string) {
    exists verb, gap, target, gap' ::
      && line == verb + gap + target + gap' + version
      && SameWord(verb, "GET") && SameWord(version, "HTTP/1.1")
      && gap != [] && IsGap(gap) && gap' != [] && IsGap(gap')
      && target != [] && IsSolid(target) && IsTarget(target, url)
  }

  lemma SamePrefixMeaning(a: string, b: string)
    requires NulFree(b)
    ensures SamePrefix(a, b, |b|) <==> |a| >= |b| && SameText(a[..|b|], b)
    ensures NulFree(a) ==> (SamePrefix(a, b, |b| + 1) <==> SameText(a, b))
  {
    LowerNul();
    if |a| < |b| {
      assert Window(a, |b|) == a + [NUL] && Window(b, |b|) == b;
      assert |a| + 1 == |b| ==> Lower((a + [NUL])[|a|]) != Lower(b[|a|]);
    }
    if |a| == |b| {
      assert SameText(a, b) ==> SamePrefix(a, b, |b| + 1);
      if SamePrefix(a, b, |b| + 1) {
        assert forall i :: 0 <= i < |a| ==> Window(a, |b| + 1)[i] == a[i] && Window(b, |b| + 1)[i] == b[i];
      }
    } else if |a| > |b| && NulFree(a) {
      assert Window(a, |b| + 1)[|b|] == a[|b|] != NUL;
    }
  }

  lemma LowerNul()
    ensures forall c: char :: Lower(c) == Lower(NUL) ==> c == NUL
  {
  }

  lemma {:induction false} BreakAt(a: string, b: string)
    requires NoBlank(a) && b != [] && IsBlank(b[0])
    ensures Break(a + b) == |a|
  {
    if a == [] {
      assert a + b == b;
    } else {
      assert (a + b)[1..] == a[1..] + b;
      BreakAt(a[1..], b);
    }
  }

  lemma {:induction false} SpanAt(a: string, b: string)
    requires AllBlank(a) && b != [] && !IsBlank(b[0])
    ensures Span(a + b) == |a| && (a + b)[|a|..] == b
  {
    if a == [] {
      assert a + b == b;
    } else {
      assert (a + b)[1..] == a[1..] + b;
      SpanAt(a[1..], b);
    }
  }

  lemma {:induction false} FindAt(a: string, b: string, c: char)
    requires c !in a && b != [] && b[0] == c
    ensures Find(a + b, c) == |a| && (a + b)[|a|..] == b
  {
    if a == [] {
      assert a + b == b;
    } else {
      assert (a + b)[1..] == a[1..] + b;
      FindAt(a[1..], b, c);
    }
  }

  /** A text cut at a blank, with the further blanks that follow it. */
  lemma CutAtGap(s: string, n: nat, k: nat)
    requires n < |s| && k <= |s| - n - 1 && IsBlank(s[n]) && AllBlank(s[n + 1..][..k])
    ensures s == s[..n] + ([s[n]] + s[n + 1..][..k]) + s[n + 1..][k..]
    ensures AllBlank([s[n]] + s[n + 1..][..k])
  {
  }

  lemma WordsHaveNoBlank(s: string, w: string)
    requires SameText(s, w) && NoBlank(w)
    ensures NoBlank(s)
  {
    forall i | 0 <= i < |s|
      ensures !IsBlank(s[i])
    {
      assert Lower(s[i]) == Lower(w[i]) && !IsBlank(w[i]);
    }
  }

  lemma TargetMeaning(target: string, url: string)
    ensures TargetPath(target) == Some(url) <==> IsTarget(target, url)
  {
    hide SamePrefix, SameText, SameWord, Find;
    SamePrefixMeaning(target, "http://");
    if |target| >= 7 { SameTextIs(target[..7], "http://"); }
    if |target| >= 7 && SameText(target[..7], "http://") {
      var t := target[7..];
      var n := Find(t, '/');
      if TargetPath(target) == Some(url) {
        assert target == target[..7] + t[..n] + url;
      }
      if IsTarget(target, url) {
        var host :| '/' !in host && target == target[..7] + host + url;
        assert t == host + url;
        FindAt(host, url, '/');
      }
    }
  }

  lemma RequestLineSound(line: string, r: Request)
    requires RequestLine(line) == Some(r)
    ensures IsRequestLine(line, r.url, r.version) && r.host.None? && !r.linger
  {
    hide Break, Span, SameText, AfterVerb, IsTarget, AllBlank, NoBlank, IsRequestLine, IsBlank;
    var b := Break(line);
    var r0 := line[b + 1..];
    CutAtGap(line, b, Span(r0));
    var target, gap' := AfterVerbParts(r0, r);
    RequestLineFrom(line[..b], [line[b]] + r0[..Span(r0)], target, gap', r.url, r.version);
  }

  lemma AfterVerbParts(r0: string, r: Request) returns (target: string, gap': string)
    requires AfterVerb(r0) == Some(r)
    ensures r0[Span(r0)..] == target + gap' + r.version && SameText(r.version, "HTTP/1.1")
    ensures target != [] && NoBlank(target) && IsTarget(target, r.url) && gap' != [] && AllBlank(gap')
    ensures r.host.None? && !r.linger
  {
    hide Break, Span, SameText, TargetPath, IsTarget, AllBlank, NoBlank, IsBlank;
    var rest := r0[Span(r0)..];
    var e := Break(rest);
    var v0 := rest[e + 1..];
    target, gap' := rest[..e], [rest[e]] + v0[..Span(v0)];
    CutAtGap(rest, e, Span(v0));
    TargetMeaning(rest[..e], r.url);
    EmptyIsNoTarget(r.url);
  }

  lemma EmptyIsNoTarget(url: string)
    ensures !IsTarget([], url)
  {
  }

  /** The words and gaps in the grammar's terms. */
  lemma WordsAre(verb: string, gap: string, target: string, gap': string, version: string)
    ensures SameText(verb, "GET") <==> SameWord(verb, "GET")
    ensures SameText(version, "HTTP/1.1") <==> SameWord(version, "HTTP/1.1")
    ensures (AllBlank(gap) <==> IsGap(gap)) && (AllBlank(gap') <==> IsGap(gap'))
    ensures NoBlank(target) <==> IsSolid(target)
  {
    hide SameText, SameWord, AllBlank, NoBlank, IsGap, IsSolid;
    SameTextIs(verb, "GET");
    SameTextIs(version, "HTTP/1.1");
    BlanksAre(gap);
    BlanksAre(gap');
    BlanksAre(target);
  }

  lemma RequestLineFrom(verb: string, gap: string, target: string, gap': string, url: string, version: string)
    requires SameText(verb, "GET") && SameText(version, "HTTP/1.1")
    requires gap != [] && AllBlank(gap) && gap' != [] && AllBlank(gap')
    requires target != [] && NoBlank(target) && IsTarget(target, url)
    ensures IsRequestLine(verb + gap + (target + gap' + version), url, version)
  {
    hide SameText, IsTarget, AllBlank, NoBlank, SameWord, IsGap, IsSolid;
    WordsAre(verb, gap, target, gap', version);
    assert verb + gap + (target + gap' + version) == verb + gap + target + gap' + version;
  }

  lemma RequestLineComplete(line: string, url: string, version: string)
    requires IsRequestLine(line, url, version)
    ensures RequestLine(line) == Some(Request(url, version, None, false))
  {
    hide Break, Span, AfterVerb, IsTarget, SameText, NoBlank, AllBlank, IsBlank, RequestLine, SameWord, IsGap, IsSolid;
    var verb, gap, target, gap' :|
      && line == verb + gap + target + gap' + version
      && SameWord(verb, "GET") && SameWord(version, "HTTP/1.1")
      && gap != [] && IsGap(gap) && gap' != [] && IsGap(gap')
      && target != [] && IsSolid(target) && IsTarget(target, url);
    WordsAre(verb, gap, target, gap', version);
    assert line == verb + (gap + (target + (gap' + version)));
    WordsComplete(verb, gap, target, gap', url, version);
  }

  lemma WordsComplete(verb: string, gap: string, target: string, gap': string, url: string, version: string)
    requires SameText(verb, "GET") && SameText(version, "HTTP/1.1")
    requires gap != [] && AllBlank(gap) && gap' != [] && AllBlank(gap')
    requires target != [] && NoBlank(target) && IsTarget(target, url)
    ensures RequestLine(verb + (gap + (target + (gap' + version)))) == Some(Request(url, version, None, false))
  {
    hide Break, Span, AfterVerb, IsTarget, SameText, NoBlank, AllBlank, IsBlank;
    var rest := target + (gap' + version);
    var line := verb + (gap + rest);
    WordIsSolid(version, "HTTP/1.1");
    WordIsSolid(verb, "GET");
    Blanks(target[0], target);
    GapSplits(verb, gap, rest);
    AfterVerbIs(line[|verb| + 1..], target, gap', url, version);
  }

  lemma AfterVerbIs(r0: string, target: string, gap': string, url: string, version: string)
    requires r0[Span(r0)..] == target + (gap' + version)
    requires SameText(version, "HTTP/1.1") && gap' != [] && AllBlank(gap')
    requires target != [] && NoBlank(target) && IsTarget(target, url)
    ensures AfterVerb(r0) == Some(Request(url, version, None, false))
  {
    hide Break, Span, TargetPath, IsTarget, SameText, NoBlank, AllBlank, IsBlank, AfterVerb;
    WordIsSolid(version, "HTTP/1.1");
    GapSplits(target, gap', version);
    TargetMeaning(target, url);
    var r := target + (gap' + version);
    AfterVerbFrom(r0, r, target, r[|target| + 1..], url, version);
  }

  lemma AfterVerbFrom(r0: string, r: string, target: string, v0: string, url: string, version: string)
    requires r == r0[Span(r0)..] && Break(r) == |target| < |r| && r[..|target|] == target && v0 == r[|target| + 1..]
    requires v0[Span(v0)..] == version && SameText(version, "HTTP/1.1") && TargetPath(target) == Some(url)
    ensures AfterVerb(r0) == Some(Request(url, version, None, false))
  {
    hide Break, Span, TargetPath, SameText;
  }

  lemma WordIsSolid(s: string, w: string)
    requires SameText(s, w) && (w == "GET" || w == "HTTP/1.1")
    ensures NoBlank(s) && s != [] && !IsBlank(s[0])
  {
    assert NoBlank(w);
    WordsHaveNoBlank(s, w);
  }

  lemma Blanks(c: char, s: string)
    requires s != [] && c == s[0] && NoBlank(s)
    ensures !IsBlank(c)
  {
  }

  lemma GapSplits(word: string, gap: string, rest: string)
    requires NoBlank(word) && gap != [] && AllBlank(gap) && rest != [] && !IsBlank(rest[0])
    ensures var s := word + (gap + rest); var tail := s[|word| + 1..];
            Break(s) == |word| && s[..|word|] == word && |word| < |s|
            && Span(tail) == |gap| - 1 && tail[|gap| - 1..] == rest
  {
    var s := word + (gap + rest);
    BreakAt(word, gap + rest);
    assert s[|word| + 1..] == gap[1..] + rest;
    SpanAt(gap[1..], rest);
  }

  // ---- what the headers say ----

  /** The line is the header `name`, colon included, with value `arg` behind optional blanks. */
  ghost predicate Carries(line: string, name: string, arg: string) {
    && |line| >= |name| && SameWord(line[..|name|], name)
    && (arg != [] ==> arg[0] != ' ' && arg[0] != '\t')
    && exists gap :: IsGap(gap) && line[|name|..] == gap + arg
  }

  ghost predicate AsksKeepAlive(line: string) {
    exists arg :: Carries(line, "Connection:", arg) && SameWord(arg, "keep-alive")
  }

  ghost predicate NamesHost(line: string) {
    exists arg :: Carries(line, "Host:", arg)
  }

  ghost predicate NoHost(lines: seq<string>) {
    forall k :: 0 <= k < |lines| ==> !NamesHost(lines[k])
  }

  /** `host` is the value of the last Host header. */
  ghost predicate LastHost(lines: seq<string>, host: string) {
    exists k :: 0 <= k < |lines| && Carries(lines[k], "Host:", host) && NoHost(lines[k + 1..])
  }

  lemma {:induction false} SpanAll(gap: string)
    requires AllBlank(gap)
    ensures Span(gap) == |gap|
  {
    if gap != [] { SpanAll(gap[1..]); }
  }

  lemma CarriesIs(line: string, name: string, arg: string)
    ensures Carries(line, name, arg) <==>
            |line| >= |name| && SameText(line[..|name|], name) && arg == Argument(line, |name|)
  {
    hide SameText, AllBlank, SameWord, IsGap;
    if |line| >= |name| {
      SameTextIs(line[..|name|], name);
      var tail := line[|name|..];
      BlanksAre(tail[..Span(tail)]);
      if gap :| IsGap(gap) && tail == gap + arg && (arg != [] ==> arg[0] != ' ' && arg[0] != '\t') {
        BlanksAre(gap);
        if arg == [] {
          assert gap + arg == gap;
          SpanAll(gap);
        } else {
          SpanAt(gap, arg);
        }
      }
      assert AllBlank(tail[..Span(tail)]) && tail == tail[..Span(tail)] + tail[Span(tail)..];
    }
  }

  lemma HeaderNames(line: string)
    ensures SamePrefix(line, "Connection:", 11) <==> |line| >= 11 && SameText(line[..11], "Connection:")
    ensures SamePrefix(line, "Host:", 5) <==> |line| >= 5 && SameText(line[..5], "Host:")
    ensures !(SamePrefix(line, "Host:", 5) && SamePrefix(line, "Connection:", 11))
    ensures !(SamePrefix(line, "Host:", 5) && SamePrefix(line, "Content-Length", 15))
  {
    SamePrefixMeaning(line, "Connection:");
    SamePrefixMeaning(line, "Host:");
    if SamePrefix(line, "Host:", 5) {
      assert line[..5][0] == line[0] && Lower(line[0]) == Lower("Host:"[0]);
      FirstDiffers(line, "Connection:", 11);
      FirstDiffers(line, "Content-Length", 15);
    }
  }

  lemma FirstDiffers(a: string, b: string, n: nat)
    requires a != [] && b != [] && n > 0 && Lower(a[0]) != Lower(b[0])
    ensures !SamePrefix(a, b, n)
  {
    assert Window(a, n)[0] == a[0] && Window(b, n)[0] == b[0];
  }

  /** The effect of one header line, in the grammar's terms. */
  lemma HeaderLineMeaning(line: string, r: Request)
    ensures var r' := HeaderLine(line, r);
            && r'.url == r.url && r'.version == r.version
            && (r'.linger <==> r.linger || AsksKeepAlive(line))
            && (if NamesHost(line) then r'.host.Some? && Carries(line, "Host:", r'.host.value) else r'.host == r.host)
  {
    HeaderNames(line);
    CarriesConnection(line);
    CarriesHost(line);
    hide SamePrefix, SameText, Argument, Carries, AsksKeepAlive, NamesHost;
  }

  lemma CarriesConnection(line: string)
    ensures AsksKeepAlive(line) <==>
            |line| >= 11 && SameText(line[..11], "Connection:") && SameText(Argument(line, 11), "keep-alive")
  {
    hide SameText, SameWord, Argument, Carries;
    forall arg ensures Carries(line, "Connection:", arg) <==>
                       |line| >= 11 && SameText(line[..11], "Connection:") && arg == Argument(line, 11)
    {
      CarriesIs(line, "Connection:", arg);
    }
    forall arg ensures SameText(arg, "keep-alive") <==> SameWord(arg, "keep-alive") {
      SameTextIs(arg, "keep-alive");
    }
  }

  lemma CarriesHost(line: string)
    ensures NamesHost(line) <==> |line| >= 5 && SameText(line[..5], "Host:")
    ensures NamesHost(line) ==> Carries(line, "Host:", Argument(line, 5))
    ensures forall arg :: Carries(line, "Host:", arg) ==> arg == Argument(line, 5)
  {
    hide SameText, Argument, Carries;
    forall arg ensures Carries(line, "Host:", arg) <==>
                       |line| >= 5 && SameText(line[..5], "Host:") && arg == Argument(line, 5)
    {
      CarriesIs(line, "Host:", arg);
    }
    assert |line| >= 5 && SameText(line[..5], "Host:") ==> Carries(line, "Host:", Argument(line, 5));
  }

  lemma NoHostCons(lines: seq<string>)
    requires lines != []
    ensures NoHost(lines) <==> !NamesHost(lines[0]) && NoHost(lines[1..])
  {
    hide NamesHost;
    assert forall k :: 1 <= k < |lines| ==> lines[k] == lines[1..][k - 1];
    assert forall k :: 0 <= k < |lines| - 1 ==> lines[1..][k] == lines[k + 1];
  }

  /** The last Host header counts: none, and the host is what it was before. */
  lemma {:induction false} HostMeaning(lines: seq<string>, r: Request)
    ensures if NoHost(lines) then HeaderLines(lines, r).host == r.host
            else HeaderLines(lines, r).host.Some? && LastHost(lines, HeaderLines(lines, r).host.value)
  {
    hide NamesHost, Carries, HeaderLine, NoHost, LastHost;
    if lines == [] {
      EmptyHost();
    } else {
      var next, tail := HeaderLine(lines[0], r), lines[1..];
      HeaderLineMeaning(lines[0], r);
      HostMeaning(tail, next);
      NoHostCons(lines);
      if !NoHost(tail) {
        LastHostLater(lines, HeaderLines(tail, next).host.value);
      } else if NamesHost(lines[0]) {
        LastHostFirst(lines, next.host.value);
      }
    }
  }

  lemma EmptyHost()
    ensures NoHost([])
  {
  }

  lemma LastHostFirst(lines: seq<string>, host: string)
    requires lines != [] && Carries(lines[0], "Host:", host) && NoHost(lines[1..])
    ensures LastHost(lines, host)
  {
    hide Carries, NoHost;
    assert lines[0 + 1..] == lines[1..];
  }

  lemma LastHostLater(lines: seq<string>, host: string)
    requires lines != [] && LastHost(lines[1..], host)
    ensures LastHost(lines, host)
  {
    hide Carries, NoHost;
    var tail := lines[1..];
    var k :| 0 <= k < |tail| && Carries(tail[k], "Host:", host) && NoHost(tail[k + 1..]);
    assert lines[k + 1] == tail[k] && lines[k + 1 + 1..] == tail[k + 1..];
  }

  lemma NoneLater(lines: seq<string>, k: nat)
    requires k < |lines| && NoHost(lines[k + 1..])
    ensures forall j :: k < j < |lines| ==> !NamesHost(lines[j])
  {
    hide NamesHost;
    forall j | k < j < |lines| ensures !NamesHost(lines[j]) {
      assert lines[k + 1..][j - k - 1] == lines[j];
    }
  }

  /** There is only one last Host header. */
  lemma LastHostUnique(lines: seq<string>, host: string, host': string)
    requires LastHost(lines, host)
    ensures !NoHost(lines) && (LastHost(lines, host') ==> host == host')
  {
    var k :| 0 <= k < |lines| && Carries(lines[k], "Host:", host) && NoHost(lines[k + 1..]);
    assert NamesHost(lines[k]);
    NoneLater(lines, k);
    if LastHost(lines, host') {
      var j :| 0 <= j < |lines| && Carries(lines[j], "Host:", host') && NoHost(lines[j + 1..]);
      assert NamesHost(lines[j]);
      NoneLater(lines, j);
      CarriesHost(lines[k]);
    }
  }

  /** keep-alive holds iff some header asks for it; the host is the one of the last Host header. */
  lemma {:induction false} HeaderLinesMeaning(lines: seq<string>, r: Request)
    ensures var r' := HeaderLines(lines, r);
            && r'.url == r.url && r'.version == r.version
            && (r'.linger <==> r.linger || exists k :: 0 <= k < |lines| && AsksKeepAlive(lines[k]))
            && if NoHost(lines) then r'.host == r.host else r'.host.Some? && LastHost(lines, r'.host.value)
  {
    hide AsksKeepAlive, NamesHost, Carries, HeaderLine, NoHost, LastHost;
    HostMeaning(lines, r);
    if lines != [] {
      HeaderLineMeaning(lines[0], r);
      HeaderLinesMeaning(lines[1..], HeaderLine(lines[0], r));
      assert forall k :: 1 <= k < |lines| ==> lines[k] == lines[1..][k - 1];
      if k :| 0 <= k < |lines| - 1 && AsksKeepAlive(lines[1..][k]) { assert AsksKeepAlive(lines[k + 1]); }
    }
  }

  // ---- the grammar of the input ----

  function Render(lines: seq<string>): string {
    if lines == [] then [] else lines[0] + CRLF + Render(lines[1..])
  }

  ghost predicate ProperHeaders(lines: seq<string>) {
    forall k :: 0 <= k < |lines| ==> lines[k] != [] && CrLfFree(lines[k])
  }

  /** The input starts with a request line, header lines and an empty line, for which the parser computes `r`. */
  ghost predicate Accepted(b: string, r: Request) {
    exists first, headers, rest ::
      && b == first + CRLF + Render(headers) + CRLF + rest
      && CrLfFree(first) && ProperHeaders(headers)
      && RequestLine(first).Some? && r == HeaderLines(headers, RequestLine(first).value)
  }

  lemma {:induction false} FirstBreakIs(b: string, from: nat, n: nat)
    requires from <= n < |b| && CrLfFree(b[from..n]) && IsBreak(b[n])
    ensures FirstBreak(b, from) == n
    decreases n - from
  {
    if from < n {
      assert b[from] == b[from..n][0];
      assert b[from + 1..n] == b[from..n][1..];
      FirstBreakIs(b, from + 1, n);
    }
  }

  lemma LineIs(b: string, from: nat, line: string)
    requires from + |line| + 2 <= |b| && CrLfFree(line) && b[from..from + |line| + 2] == line + CRLF
    ensures NextLine(b, from) == LineOk(from + |line| + 2) && b[from..from + |line|] == line
  {
    var n := from + |line|;
    assert b[from..n] == (line + CRLF)[..|line|] == line;
    assert b[n] == (line + CRLF)[|line|] && b[n + 1] == (line + CRLF)[|line| + 1];
    FirstBreakIs(b, from, n);
  }

  lemma NoLines()
    ensures Render([]) == [] && CrLfFree([])
  {
  }

  lemma FirstLine(b: string, pos: nat, lines: seq<string>, rest: string)
    requires pos <= |b| && lines != [] && b[pos..] == Render(lines) + CRLF + rest
    ensures var next := pos + |lines[0]| + 2;
            next <= |b| && b[pos..next] == lines[0] + CRLF && b[next..] == Render(lines[1..]) + CRLF + rest
  {
    hide Render;
    RenderFirst(lines, rest);
    SplitFront(b, pos, lines[0] + CRLF, Render(lines[1..]) + CRLF + rest);
  }

  lemma RenderFirst(lines: seq<string>, rest: string)
    requires lines != []
    ensures Render(lines) + CRLF + rest == (lines[0] + CRLF) + (Render(lines[1..]) + CRLF + rest)
  {
    var more := Render(lines[1..]);
    assert Render(lines) == (lines[0] + CRLF) + more;
    hide Render;
    Associates(lines[0] + CRLF, more, CRLF, rest);
  }

  lemma Associates(a: string, b: string, c: string, d: string)
    ensures a + b + c + d == a + (b + c + d)
  {
  }

  lemma SplitFront(b: string, pos: nat, front: string, tail: string)
    requires pos <= |b| && b[pos..] == front + tail
    ensures pos + |front| <= |b| && b[pos..pos + |front|] == front && b[pos + |front|..] == tail
  {
    assert b[pos..pos + |front|] == b[pos..][..|front|];
    assert b[pos + |front|..] == b[pos..][|front|..];
  }

  lemma {:induction false} HeadersParse(b: string, pos: nat, headers: seq<string>, rest: string, r: Request)
    requires pos <= |b| && b[pos..] == Render(headers) + CRLF + rest && ProperHeaders(headers)
    ensures Parse(b, pos, Headers(r)).verdict == DoRequest(HeaderLines(headers, r))
    decreases |headers|
  {
    hide NextLine, HeaderLine, RequestLine, CrLfFree, Render;
    if headers == [] {
      NoLines();
      assert b[pos..pos + 2] == b[pos..][..2] == [] + CRLF;
      LineIs(b, pos, []);
    } else {
      var line := headers[0];
      assert line != [] && CrLfFree(line) && ProperHeaders(headers[1..]);
      var next := pos + |line| + 2;
      FirstLine(b, pos, headers, rest);
      LineIs(b, pos, line);
      HeadersParse(b, next, headers[1..], rest, HeaderLine(line, r));
    }
  }

  lemma {:induction false} HeadersFound(b: string, pos: nat, r: Request, r': Request)
    returns (headers: seq<string>, rest: string)
    requires pos <= |b| && Parse(b, pos, Headers(r)).verdict == DoRequest(r')
    ensures b[pos..] == Render(headers) + CRLF + rest && ProperHeaders(headers) && r' == HeaderLines(headers, r)
    decreases |b| - pos
  {
    hide NextLine, HeaderLine;
    var next := NextLine(b, pos).next;
    var line := b[pos..next - 2];
    assert b[pos..] == line + CRLF + b[next..];
    if line == [] {
      headers, rest := [], b[next..];
    } else {
      var hs;
      hs, rest := HeadersFound(b, next, HeaderLine(line, r), r');
      headers := [line] + hs;
      assert headers[1..] == hs;
      assert line + CRLF + (Render(hs) + CRLF + rest) == Render(headers) + CRLF + rest;
    }
  }

  lemma AcceptedIsParsed(first: string, headers: seq<string>, rest: string, r: Request)
    requires CrLfFree(first) && ProperHeaders(headers) && RequestLine(first) == Some(r)
    ensures OneShot(first + CRLF + Render(headers) + CRLF + rest) == DoRequest(HeaderLines(headers, r))
  {
    hide NextLine, HeaderLine, RequestLine, HeaderLines, Render;
    var b := first + CRLF + Render(headers) + CRLF + rest;
    var next := |first| + 2;
    assert b[0..next] == first + CRLF;
    assert b[next..] == Render(headers) + CRLF + rest;
    LineIs(b, 0, first);
    HeadersParse(b, next, headers, rest, r);
  }

  lemma ParsedIsAccepted(b: string, r: Request)
    requires OneShot(b) == DoRequest(r)
    ensures Accepted(b, r)
  {
    hide NextLine, HeaderLine, RequestLine, HeaderLines, Render;
    var next := NextLine(b, 0).next;
    var first := b[0..next - 2];
    var headers, rest := HeadersFound(b, next, RequestLine(first).value, r);
    assert b == first + CRLF + b[next..];
    assert b == first + CRLF + Render(headers) + CRLF + rest;
  }

  /** The grammar: a request line, header lines and an empty line, that say path, version, keep-alive and host. */
  ghost predicate IsRequest(b: string, r: Request) {
    exists first, headers, rest ::
      && b == first + CRLF + Render(headers) + CRLF + rest
      && CrLfFree(first) && ProperHeaders(headers) && Says(first, headers, r)
  }

  ghost predicate Says(first: string, headers: seq<string>, r: Request) {
    && IsRequestLine(first, r.url, r.version)
    && (r.linger <==> exists k :: 0 <= k < |headers| && AsksKeepAlive(headers[k]))
    && match r.host case None => NoHost(headers) case Some(host) => LastHost(headers, host)
  }

  lemma SaysIs(first: string, headers: seq<string>, r: Request)
    ensures Says(first, headers, r) <==>
            RequestLine(first).Some? && r == HeaderLines(headers, RequestLine(first).value)
  {
    hide IsRequestLine, RequestLine, HeaderLines, AsksKeepAlive, NoHost, LastHost;
    if IsRequestLine(first, r.url, r.version) { RequestLineComplete(first, r.url, r.version); }
    if RequestLine(first).Some? {
      var start := RequestLine(first).value;
      RequestLineSound(first, start);
      HeaderLinesMeaning(headers, start);
      var r' := HeaderLines(headers, start);
      if r'.host.Some? && !NoHost(headers) && r.host.Some? {
        LastHostUnique(headers, r'.host.value, r.host.value);
      }
      if r.host.Some? && LastHost(headers, r.host.value) { LastHostUnique(headers, r.host.value, r.host.value); }
    }
  }

  /** The parser reaches do_request with `r` exactly on the inputs the grammar gives `r`. */
  lemma AcceptsGrammar(b: string, r: Request)
    ensures OneShot(b) == DoRequest(r) <==> IsRequest(b, r)
  {
    hide RequestLine, HeaderLines, Render, OneShot, Says;
    AcceptsLines(b, r);
    if Accepted(b, r) {
      var first, headers, rest :|
        && b == first + CRLF + Render(headers) + CRLF + rest
        && CrLfFree(first) && ProperHeaders(headers)
        && RequestLine(first).Some? && r == HeaderLines(headers, RequestLine(first).value);
      SaysIs(first, headers, r);
    }
    if IsRequest(b, r) {
      var first, headers, rest :|
        && b == first + CRLF + Render(headers) + CRLF + rest
        && CrLfFree(first) && ProperHeaders(headers) && Says(first, headers, r);
      SaysIs(first, headers, r);
    }
  }

  lemma AcceptsLines(b: string, r: Request)
    ensures OneShot(b) == DoRequest(r) <==> Accepted(b, r)
  {
    hide RequestLine, HeaderLines, Render, OneShot;
    if OneShot(b) == DoRequest(r) {
      ParsedIsAccepted(b, r);
    }
    if Accepted(b, r) {
      var first, headers, rest :|
        && b == first + CRLF + Render(headers) + CRLF + rest
        && CrLfFree(first) && ProperHeaders(headers)
        && RequestLine(first).Some? && r == HeaderLines(headers, RequestLine(first).value);
      AcceptedIsParsed(first, headers, rest, RequestLine(first).value);
    }
  }

  /** It answers BAD_REQUEST exactly when the first complete line is no request line. */
  lemma RejectsGrammar(b: string)
    ensures OneShot(b) == BadRequest <==>
            exists first, rest :: b == first + CRLF + rest && CrLfFree(first) && NoRequestLine(first)
  {
    hide NextLine, RequestLine, HeaderLine, NoRequestLine;
    if OneShot(b) == BadRequest {
      var next := NextLine(b, 0).next;
      var first := b[0..next - 2];
      NoRequestLineMeaning(first);
      if RequestLine(first).Some? {
        HeadersNeverBad(b, next, RequestLine(first).value);
      }
      assert b == first + CRLF + b[next..];
    }
    if first, rest :| b == first + CRLF + rest && CrLfFree(first) && NoRequestLine(first) {
      assert b[0..|first| + 2] == first + CRLF;
      LineIs(b, 0, first);
      NoRequestLineMeaning(first);
    }
  }

  ghost predicate NoRequestLine(line: string) {
    forall url, version :: !IsRequestLine(line, url, version)
  }

  lemma NoRequestLineMeaning(line: string)
    ensures NoRequestLine(line) <==> RequestLine(line).None?
  {
    hide IsRequestLine, RequestLine;
    if RequestLine(line).Some? {
      RequestLineSound(line, RequestLine(line).value);
    }
    forall url, version | IsRequestLine(line, url, version)
      ensures RequestLine(line).Some?
    {
      RequestLineComplete(line, url, version);
    }
  }

  lemma {:induction false} HeadersNeverBad(b: string, pos: nat, r: Request)
    requires pos <= |b|
    ensures Parse(b, pos, Headers(r)).verdict != BadRequest
    decreases |b| - pos
  {
    hide NextLine, RequestLine, HeaderLine;
    var status := NextLine(b, pos);
    if status.LineOk? && status.next - 2 > pos {
      HeadersNeverBad(b, status.next, HeaderLine(b[pos..status.next - 2], r));
    }
  }

  // ---- round trip ----

  /** The fixed words of a request, in the letter case the client chooses. */
  datatype Words = Words(verb: string, version: string, host: string, connection: string, keepAlive: string)

  predicate Proper(w: Words) {
    && SameWord(w.verb, "GET") && SameWord(w.version, "HTTP/1.1") && SameWord(w.host, "Host:")
    && SameWord(w.connection, "Connection:") && SameWord(w.keepAlive, "keep-alive")
  }

  function RenderRequest(w: Words, path: string, host: string, linger: bool): string {
    w.verb + " " + path + " " + w.version + "\r\n" +
    w.host + " " + host + "\r\n" +
    (if linger then w.connection + " " + w.keepAlive + "\r\n" else []) + "\r\n"
  }

  /** Rendering a request, its words in any letter case, and parsing it gives back path, host and keep-alive. */
  lemma RoundTrip(w: Words, path: string, host: string, linger: bool)
    requires Proper(w) && path != [] && path[0] == '/' && IsSolid(path) && CrLfFree(path)
    requires CrLfFree(host) && (host != [] ==> host[0] != ' ' && host[0] != '\t')
    ensures OneShot(RenderRequest(w, path, host, linger)) == DoRequest(Request(path, w.version, Some(host), linger))
  {
    hide OneShot, IsRequest, Says, Proper, CrLfFree, ProperHeaders, IsSolid, Render;
    var first := w.verb + " " + path + " " + w.version;
    var headers := [w.host + " " + host] + if linger then [w.connection + " " + w.keepAlive] else [];
    var r := Request(path, w.version, Some(host), linger);
    RenderedLine(w, path);
    RenderedHeaders(w, host, linger);
    RenderedSays(w, path, host, linger);
    RenderedText(w, path, host, linger);
    IsRequestFrom(first, headers, r);
    AcceptsGrammar(RenderRequest(w, path, host, linger), r);
  }

  lemma IsRequestFrom(first: string, headers: seq<string>, r: Request)
    requires CrLfFree(first) && ProperHeaders(headers) && Says(first, headers, r)
    ensures IsRequest(first + CRLF + Render(headers) + CRLF, r)
  {
    hide Says, Render, CrLfFree, ProperHeaders;
    assert first + CRLF + Render(headers) + CRLF == first + CRLF + Render(headers) + CRLF + [];
  }

  lemma RenderedText(w: Words, path: string, host: string, linger: bool)
    ensures var first := w.verb + " " + path + " " + w.version;
            var headers := [w.host + " " + host] + if linger then [w.connection + " " + w.keepAlive] else [];
            RenderRequest(w, path, host, linger) == first + CRLF + Render(headers) + CRLF
  {
    var h, c := w.host + " " + host, w.connection + " " + w.keepAlive;
    var tail := if linger then [c] else [];
    assert ([h] + tail)[1..] == tail && (linger ==> tail[1..] == []);
    assert Render([h] + tail) == h + CRLF + Render(tail);
    assert Render(tail) == if linger then c + CRLF + [] else [];
    assert CRLF == "\r\n";
  }

  lemma RenderedLine(w: Words, path: string)
    requires Proper(w) && path != [] && path[0] == '/' && IsSolid(path) && CrLfFree(path)
    ensures var first := w.verb + " " + path + " " + w.version;
            CrLfFree(first) && IsRequestLine(first, path, w.version)
  {
    WordCrLfFree(w.verb, "GET");
    WordCrLfFree(w.version, "HTTP/1.1");
    assert IsTarget(path, path) by {
      if |path| >= 7 { assert path[..7][0] == path[0] && !SameLetter(path[0], "http://"[0]); }
    }
    hide SameWord, IsTarget, IsSolid;
    assert IsGap(" ");
  }

  lemma WordCrLfFree(s: string, w: string)
    requires SameWord(s, w) && CrLfFree(w)
    ensures CrLfFree(s)
  {
    forall i | 0 <= i < |s| ensures s[i] != CR && s[i] != LF {
      assert SameLetter(s[i], w[i]) && w[i] in w;
    }
  }

  lemma RenderedHost(w: Words, host: string)
    requires SameWord(w.host, "Host:") && CrLfFree(host) && (host != [] ==> host[0] != ' ' && host[0] != '\t')
    ensures var h := w.host + " " + host;
            h != [] && CrLfFree(h) && Carries(h, "Host:", host) && !AsksKeepAlive(h)
  {
    var h := w.host + " " + host;
    WordCrLfFree(w.host, "Host:");
    CarriesFrom("Host:", w.host, host);
    assert SameLetter(w.host[0], 'H') && h[0] == w.host[0];
    NotNamed(h, "Connection:");
  }

  lemma RenderedConnection(w: Words)
    requires SameWord(w.connection, "Connection:") && SameWord(w.keepAlive, "keep-alive")
    ensures var c := w.connection + " " + w.keepAlive;
            c != [] && CrLfFree(c) && AsksKeepAlive(c) && !NamesHost(c)
  {
    var c := w.connection + " " + w.keepAlive;
    WordCrLfFree(w.connection, "Connection:");
    WordCrLfFree(w.keepAlive, "keep-alive");
    assert SameLetter(w.keepAlive[0], 'k') && SameLetter(w.connection[0], 'C');
    CarriesFrom("Connection:", w.connection, w.keepAlive);
    hide SameWord, Carries;
    assert c[0] == w.connection[0];
    NotNamed(c, "Host:");
  }

  lemma CarriesFrom(name: string, word: string, arg: string)
    requires SameWord(word, name) && (arg != [] ==> arg[0] != ' ' && arg[0] != '\t')
    ensures Carries(word + " " + arg, name, arg)
  {
    var line := word + " " + arg;
    assert line[..|name|] == word && line[|name|..] == " " + arg && IsGap(" ");
    hide SameWord, IsGap;
  }

  /** A line whose first letter is another one does not carry that header. */
  lemma NotNamed(line: string, name: string)
    requires line != [] && name != [] && !SameLetter(line[0], name[0])
    ensures forall arg :: !Carries(line, name, arg)
  {
    if |line| >= |name| { assert line[..|name|][0] == line[0]; }
  }

  lemma RenderedHeaders(w: Words, host: string, linger: bool)
    requires Proper(w) && CrLfFree(host) && (host != [] ==> host[0] != ' ' && host[0] != '\t')
    ensures var h, c := w.host + " " + host, w.connection + " " + w.keepAlive;
            ProperHeaders([h] + if linger then [c] else [])
  {
    hide CrLfFree, Carries, AsksKeepAlive, NamesHost, SameWord;
    RenderedHost(w, host);
    RenderedConnection(w);
  }

  lemma RenderedSays(w: Words, path: string, host: string, linger: bool)
    requires Proper(w) && CrLfFree(host) && (host != [] ==> host[0] != ' ' && host[0] != '\t')
    requires IsRequestLine(w.verb + " " + path + " " + w.version, path, w.version)
    ensures var headers := [w.host + " " + host] + if linger then [w.connection + " " + w.keepAlive] else [];
            Says(w.verb + " " + path + " " + w.version, headers, Request(path, w.version, Some(host), linger))
  {
    hide CrLfFree, Carries, AsksKeepAlive, NamesHost, IsRequestLine, SameWord;
    var h, c := w.host + " " + host, w.connection + " " + w.keepAlive;
    var headers := [h] + if linger then [c] else [];
    RenderedHost(w, host);
    RenderedConnection(w);
    assert headers[0] == h && (linger ==> headers[1] == c && AsksKeepAlive(headers[1]));
    assert headers[0 + 1..] == if linger then [c] else [];
    assert NoHost(headers[0 + 1..]);
    assert LastHost(headers, host);
  }

  /** One request spelled out: small letters, a tab for the first blank. */
  lemma AnyCase()
    ensures OneShot("get\t/ http/1.1\r\n\r\n") == DoRequest(Request("/", "http/1.1", None, false))
  {
    var first, r := "get\t/ http/1.1", Request("/", "http/1.1", None, false);
    hide OneShot, IsRequest, Says, Render, ProperHeaders, CrLfFree;
    AnyCaseSays(first, r);
    NoLines();
    NoHeaders();
    IsRequestFrom(first, [], r);
    AnyCaseText(first);
    AcceptsGrammar(first + CRLF + [] + CRLF, r);
  }

  lemma NoHeaders()
    ensures ProperHeaders([])
  {
  }

  lemma AnyCaseText(first: string)
    requires first == "get\t/ http/1.1"
    ensures first + CRLF + [] + CRLF == "get\t/ http/1.1\r\n\r\n"
  {
  }

  lemma AnyCaseSays(first: string, r: Request)
    requires first == "get\t/ http/1.1" && r == Request("/", "http/1.1", None, false)
    ensures CrLfFree(first) && Says(first, [], r)
  {
    hide Says, IsRequestLine;
    AnyCaseLine();
    SaysNoHeader(first, r);
  }

  lemma SaysNoHeader(first: string, r: Request)
    requires IsRequestLine(first, r.url, r.version) && r.host.None? && !r.linger
    ensures Says(first, [], r)
  {
    hide IsRequestLine;
  }

  lemma AnyCaseLine()
    ensures IsRequestLine("get\t/ http/1.1", "/", "http/1.1")
  {
    hide SameWord, IsTarget, IsGap, IsSolid, IsRequestLine;
    AnyCaseWords();
    LineFrom("get", "\t", "/", " ", "http/1.1", "/");
    assert "get\t/ http/1.1" == "get" + "\t" + "/" + " " + "http/1.1";
  }

  lemma AnyCaseWords()
    ensures SameWord("get", "GET") && SameWord("http/1.1", "HTTP/1.1")
    ensures IsGap("\t") && IsGap(" ") && IsSolid("/") && IsTarget("/", "/")
  {
  }

  lemma LineFrom(verb: string, gap: string, target: string, gap': string, version: string, url: string)
    requires SameWord(verb, "GET") && SameWord(version, "HTTP/1.1")
    requires gap != [] && IsGap(gap) && gap' != [] && IsGap(gap')
    requires target != [] && IsSolid(target) && IsTarget(target, url)
    ensures IsRequestLine(verb + gap + target + gap' + version, url, version)
  {
    hide SameWord, IsGap, IsSolid, IsTarget;
  }

  /** And one with the header words in other cases than the usual ones: the connection is kept. */
  lemma AnyCaseKeptAlive(path: string, host: string)
    requires path != [] && path[0] == '/' && IsSolid(path) && CrLfFree(path)
    requires CrLfFree(host) && (host != [] ==> host[0] != ' ' && host[0] != '\t')
    ensures OneShot(RenderRequest(Words("Get", "Http/1.1", "HOST:", "connection:", "Keep-Alive"), path, host, true)) ==
            DoRequest(Request(path, "Http/1.1", Some(host), true))
  {
    var w := Words("Get", "Http/1.1", "HOST:", "connection:", "Keep-Alive");
    assert Proper(w);
    hide Proper, OneShot, RenderRequest;
    RoundTrip(w, path, host, true);
  }
}
