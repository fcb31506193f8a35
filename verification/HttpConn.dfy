/** class http_conn of http_conn.cpp: the resumable parser that tokenises its read buffer in place. The pure parser of
    HttpGrammar, run on everything received so far, specifies it. */
module HttpConnModel {
  import opened HttpText
  import opened HttpGrammar
  import opened Wrappers

  const READ_BUFFER_SIZE: nat := 2048

  datatype CheckState = CHECK_STATE_REQUESTLINE | CHECK_STATE_HEADER | CHECK_STATE_CONTENT
  datatype LineCode = LINE_OK | LINE_BAD | LINE_OPEN
  /** GET_REQUEST from process_read stands for the call of do_request. */
  datatype HttpCode = NO_REQUEST | GET_REQUEST | BAD_REQUEST

  /** The pointer leads to the string s, its terminator lying below lim. */
  ghost predicate Points(b: string, p: Option<nat>, s: string, lim: nat) {
    p.Some? && Holds(b, p.value, s) && p.value + |s| < lim
  }

  ghost predicate Strings(b: string, url: Option<nat>, version: Option<nat>, host: Option<nat>, req: Request,
                          lim: nat)
  {
    && Points(b, url, req.url, lim) && Points(b, version, req.version, lim)
    && (req.host.None? <==> host.None?) && (req.host.Some? ==> Points(b, host, req.host.value, lim))
  }

  /** Neither CR nor LF is left below lim. */
  ghost predicate NoBreaks(b: string, lim: nat) {
    lim <= |b| && forall k :: 0 <= k < lim ==> !IsBreak(b[k])
  }

  /** c is b with some characters overwritten by NUL. */
  ghost predicate Blanked(b: string, c: string) {
    |b| == |c| && forall k :: 0 <= k < |b| ==> c[k] == b[k] || c[k] == NUL
  }

  /** From `from` on b holds the received bytes. */
  ghost predicate Matches(b: string, input: string, from: nat) {
    |input| <= |b| && forall k :: from <= k < |input| ==> b[k] == input[k]
  }

  lemma MatchAt(b: string, input: string, from: nat, k: nat)
    requires Matches(b, input, from) && from <= k < |input|
    ensures |input| <= |b| && b[k] == input[k] && (k + 1 < |input| ==> b[k + 1] == input[k + 1])
  {
  }

  lemma NoBreaksGrow(b: string, lim: nat)
    requires NoBreaks(b, lim) && lim < |b| && !IsBreak(b[lim])
    ensures NoBreaks(b, lim + 1)
  {
  }

  lemma NoBreaksCut(b: string, lim: nat)
    requires NoBreaks(b, lim) && lim + 1 < |b|
    ensures NoBreaks(b[lim := NUL][lim + 1 := NUL], lim + 2)
  {
  }

  lemma NoBreakAt(b: string, lim: nat)
    requires NoBreaks(b, lim)
    ensures lim > 0 ==> b[lim - 1] != CR
  {
  }

  lemma BlankedNoBreaks(b: string, c: string, lim: nat)
    requires NoBreaks(b, lim) && Blanked(b, c)
    ensures NoBreaks(c, lim)
  {
  }

  lemma BlankedSelf(b: string)
    ensures Blanked(b, b)
  {
  }

  /** A NUL written at i, then changes between at and to: nothing before from, nothing from to on. */
  lemma OutsideKept(a: string, b: string, c: string, from: nat, i: nat, at: nat, to: nat)
    requires from <= i < at <= to <= |a| == |c| && b == a[i := NUL] && c[..at] == b[..at] && c[to..] == b[to..]
    ensures c[..from] == a[..from] && c[to..] == a[to..]
  {
    assert c[..from] == c[..at][..from] == b[..at][..from] == b[..from];
    assert b[to..] == a[to..];
  }

  lemma BlankOne(a: string, b: string, i: nat)
    requires i < |b| && Blanked(a, b)
    ensures Blanked(a, b[i := NUL])
  {
  }

  lemma BlankedTwice(a: string, b: string, c: string)
    requires Blanked(a, b) && Blanked(b, c)
    ensures Blanked(a, c)
  {
  }

  /** Writes at or behind lim leave the strings of earlier lines alone. */
  lemma StringsFrame(b: string, c: string, url: Option<nat>, version: Option<nat>, host: Option<nat>, req: Request,
                     lim: nat)
    requires Strings(b, url, version, host, req, lim) && lim <= |b| == |c| && b[..lim] == c[..lim]
    ensures Strings(c, url, version, host, req, lim)
  {
    HoldsFrame(b, c, url.value, req.url, lim);
    HoldsFrame(b, c, version.value, req.version, lim);
    if req.host.Some? { HoldsFrame(b, c, host.value, req.host.value, lim); }
  }

  lemma StringsGrow(b: string, url: Option<nat>, version: Option<nat>, host: Option<nat>, req: Request, lim: nat,
                    lim': nat)
    requires Strings(b, url, version, host, req, lim) && lim <= lim'
    ensures Strings(b, url, version, host, req, lim')
  {
  }

  class HttpConn {
    const buf: array<char>
    var readIdx: nat
    var checkedIdx: nat
    var startLine: nat
    var checkState: CheckState
    var url: Option<nat>       // char pointers are indices into buf; None is a null pointer
    var version: Option<nat>
    var host: Option<nat>
    var linger: bool
    var contentLength: int
    ghost var input: string    // every byte received so far
    ghost var progress: Progress
    ghost var rounds: nat      // iterations of the loop in parse_line, over all calls
    ghost var calls: nat       // calls of parse_line

    ghost predicate Fields(req: Request, lim: nat)
      reads this, buf
    {
      Strings(buf[..], url, version, host, req, lim) && linger == req.linger
    }

    /** From lim on the buffer is what was received, and zero behind that. */
    ghost predicate Received(lim: nat)
      reads this, buf
    {
      && buf.Length == READ_BUFFER_SIZE
      && lim <= checkedIdx <= readIdx == |input| <= READ_BUFFER_SIZE && NulFree(input)
      && (forall k :: lim <= k < readIdx ==> buf[k] == input[k])
      && (forall k :: readIdx <= k < READ_BUFFER_SIZE ==> buf[k] == NUL)
      && rounds <= checkedIdx + calls
    }

    ghost predicate Cursors()
      reads this, buf
    {
      && startLine <= checkedIdx && Received(startLine)
      && CrLfFree(input[startLine..checkedIdx]) && NoBreaks(buf[..], checkedIdx)
    }

    /** Exactly input[..startLine] has been understood, as `progress`, and the fields say so. */
    ghost predicate Understood()
      reads this, buf
    {
      && contentLength == 0 && startLine <= |input|
      && Parse(input[..startLine], 0, Start) == Parsed(NoRequest, startLine, progress)
      && match progress
         case Start => checkState == CHECK_STATE_REQUESTLINE && !linger && host.None?
         case Headers(req) => checkState == CHECK_STATE_HEADER && Fields(req, startLine)
    }

    /** The state between two calls. */
    ghost predicate Valid()
      reads this, buf
    {
      Cursors() && Understood()
    }

    constructor ()
      ensures Valid() && input == [] && fresh(buf)
    {
      buf := new char[READ_BUFFER_SIZE](_ => NUL);
      readIdx, checkedIdx, startLine, checkState := 0, 0, 0, CHECK_STATE_REQUESTLINE;
      url, version, host, linger, contentLength := None, None, None, false, 0;
      input, progress, rounds, calls := [], Start, 0, 0;
    }

    /** recv stores a chunk behind what is there. */
    method Receive(chunk: string)
      requires Valid() && NulFree(chunk) && readIdx + |chunk| <= READ_BUFFER_SIZE
      modifies buf, this`readIdx, this`input
      ensures Valid() && input == old(input) + chunk
      ensures startLine == old(startLine) && progress == old(progress)
    {
      hide Parse, Strings;
      ghost var before := buf[..];
      forall k | 0 <= k < |chunk| {
        buf[readIdx + k] := chunk[k];
      }
      readIdx := readIdx + |chunk|;
      input := input + chunk;
      assert input[..startLine] == old(input)[..startLine];
      assert input[startLine..checkedIdx] == old(input)[startLine..checkedIdx];
      assert before[..startLine] == buf[..startLine];
      assert forall k :: 0 <= k < checkedIdx ==> buf[k] == before[k];
      if progress.Headers? { StringsFrame(before, buf[..], url, version, host, progress.req, startLine); }
    }

    /** read(): recv until the socket runs dry. Each call of recv delivers an arbitrary part of what is pending. `again`
        says how recv answers once nothing is pending: EAGAIN, or 0 for a closed connection. When the buffer is full
        recv is asked for 0 bytes, and what it then answers is up to the system: `zeroAgain` means EAGAIN, which ends
        the loop with success; otherwise it answers 0, which read() takes for a closed connection. */
    method Read(pending: string, again: bool, zeroAgain: bool) returns (ok: bool)
      requires Valid() && NulFree(pending)
      modifies buf, this`readIdx, this`input
      ensures Valid() && startLine == old(startLine) && progress == old(progress)
      ensures var room := READ_BUFFER_SIZE - old(readIdx);
              && input == old(input) + (if |pending| <= room then pending else pending[..room])
              && (ok <==> room > 0 && if |pending| < room then again else zeroAgain)
    {
      hide Valid, NulFree;
      Bounds();
      if readIdx >= READ_BUFFER_SIZE {
        return false;
      }
      var taken := 0;
      while true
        invariant Valid() && startLine == old(startLine) && progress == old(progress)
        invariant 0 <= taken <= |pending| && readIdx == old(readIdx) + taken <= READ_BUFFER_SIZE
        invariant input == old(input) + pending[..taken]
        decreases |pending| - taken
      {
        if taken == |pending| && readIdx < READ_BUFFER_SIZE {
          return again;
        }
        if readIdx == READ_BUFFER_SIZE {
          return zeroAgain;
        }
        var bytes :| 1 <= bytes <= |pending| - taken && bytes <= READ_BUFFER_SIZE - readIdx;
        NulFreePart(pending, taken, bytes);
        Receive(pending[taken..taken + bytes]);
        Bounds();
        assert pending[..taken] + pending[taken..taken + bytes] == pending[..taken + bytes];
        taken := taken + bytes;
      }
    }

    lemma Bounds()
      requires Valid()
      ensures readIdx == |input| <= READ_BUFFER_SIZE && buf.Length == READ_BUFFER_SIZE && NulFree(input)
      ensures startLine <= checkedIdx <= readIdx
    {
    }

    lemma CursorFacts()
      requires Cursors()
      ensures buf.Length == READ_BUFFER_SIZE && readIdx == |input| <= READ_BUFFER_SIZE
      ensures startLine <= checkedIdx <= readIdx && rounds <= checkedIdx + calls
      ensures CrLfFree(input[startLine..checkedIdx]) && NoBreaks(buf[..], checkedIdx)
      ensures Matches(buf[..], input, startLine)
    {
      hide NoBreaks, CrLfFree, NulFree;
    }

    /** The line-splitting sub-machine. */
    method ParseLine() returns (status: LineCode)
      requires Cursors()
      modifies buf, this`checkedIdx, this`rounds, this`calls
      ensures startLine <= checkedIdx <= readIdx && rounds <= checkedIdx + calls
      ensures var r := NextLine(input, startLine);
              match status
              case LINE_OK => r == LineOk(checkedIdx)
              case LINE_OPEN => r == LineOpen(checkedIdx)
              case LINE_BAD => r == LineBad(checkedIdx)
      ensures status == LINE_OK ==> buf[..] == old(buf[..])[checkedIdx - 2 := NUL][checkedIdx - 1 := NUL]
      ensures status != LINE_OK ==> buf[..] == old(buf[..]) && CrLfFree(input[startLine..checkedIdx])
      ensures NoBreaks(buf[..], checkedIdx)
    {
      hide NextLine, CrLfFree, NulFree, NoBreaks, Cursors, Matches;
      CursorFacts();
      calls := calls + 1;
      while checkedIdx < readIdx
        invariant startLine <= checkedIdx <= readIdx && CrLfFree(input[startLine..checkedIdx])
        invariant buf[..] == old(buf[..]) && NoBreaks(buf[..], checkedIdx) && Matches(buf[..], input, startLine)
        invariant rounds + 1 <= checkedIdx + calls
      {
        rounds := rounds + 1;
        var temp := buf[checkedIdx];
        MatchAt(buf[..], input, startLine, checkedIdx);
        if temp == CR {
          NextLineIs(input, startLine, checkedIdx);
          if checkedIdx + 1 == readIdx {
            return LINE_OPEN;
          } else if buf[checkedIdx + 1] == LF {
            NoBreaksCut(buf[..], checkedIdx);
            buf[checkedIdx] := NUL;
            buf[checkedIdx + 1] := NUL;
            checkedIdx := checkedIdx + 2;
            return LINE_OK;
          }
          return LINE_BAD;
        } else if temp == LF {
          NextLineIs(input, startLine, checkedIdx);
          NoBreakAt(buf[..], checkedIdx);
          if checkedIdx > 1 && buf[checkedIdx - 1] == CR {
            assert false;  // NoBreaks: no CR is left below checkedIdx, so this branch of the source is never taken
          }
          return LINE_BAD;
        }
        NoBreakGrows(input, startLine, checkedIdx);
        NoBreaksGrow(buf[..], checkedIdx);
        checkedIdx := checkedIdx + 1;
      }
      assert input[startLine..checkedIdx] == input[startLine..];
      NoBreakLeft(input, startLine);
      return LINE_OPEN;
    }

    /** parse_request_line, on the line that starts at text. */
    method ParseRequestLine(text: nat, ghost line: string) returns (ret: HttpCode)
      requires Holds(buf[..], text, line)
      modifies buf, this`url, this`version, this`checkState
      ensures ret == (if RequestLine(line).None? then BAD_REQUEST else NO_REQUEST)
      ensures Blanked(old(buf[..]), buf[..])
      ensures buf[..text] == old(buf[..text]) && buf[text + |line|..] == old(buf[text + |line|..])
      ensures ret == NO_REQUEST ==> checkState == CHECK_STATE_HEADER
      ensures ret == NO_REQUEST ==> var r := RequestLine(line).value; var end := text + |line| + 2;
                                    Points(buf[..], url, r.url, end) && Points(buf[..], version, r.version, end)
    {
      hide Break, SameText, Holds, StringAt, AfterVerb, NoBlank, IsBlank, NulFree, Blanked, Points;
      ghost var b0 := buf[..];
      BlankedSelf(b0);
      HoldsIsStringAt(b0, text, line);
      var n := Break(StringAt(buf[..], text));
      if n == |StringAt(buf[..], text)| {
        url := None;
        return BAD_REQUEST;
      }
      HoldsCut(b0, text, line, n);
      buf[text + n] := NUL;
      ghost var b1 := b0[text + n := NUL];
      assert buf[..] == b1;
      BlankOne(b0, b0, text + n);
      HoldsIsStringAt(b1, text, line[..n]);
      url := Some(text + n + 1);
      if !SameText(StringAt(buf[..], text), "GET") {
        return BAD_REQUEST;
      }
      ret := ParseTarget(text + n + 1, line[n + 1..]);
      BlankedTwice(b0, b1, buf[..]);
      OutsideKept(b0, b1, buf[..], text, text + n, text + n + 1, text + |line|);
    }

    /** Lines 158-180: the request line from behind the first blank on. */
    method ParseTarget(at: nat, ghost rest: string) returns (ret: HttpCode)
      requires Holds(buf[..], at, rest)
      modifies buf, this`url, this`version, this`checkState
      ensures ret == (if AfterVerb(rest).None? then BAD_REQUEST else NO_REQUEST)
      ensures Blanked(old(buf[..]), buf[..])
      ensures buf[..at] == old(buf[..at]) && buf[at + |rest|..] == old(buf[at + |rest|..])
      ensures ret == NO_REQUEST ==> checkState == CHECK_STATE_HEADER
      ensures ret == NO_REQUEST ==> var r := AfterVerb(rest).value; var end := at + |rest| + 2;
                                    Points(buf[..], url, r.url, end) && Points(buf[..], version, r.version, end)
    {
      hide Break, Span, SameText, Holds, StringAt, TargetPath, AllBlank, NoBlank, IsBlank, NulFree, Points, AfterVerb;
      hide Blanked;
      ghost var r := rest[Span(rest)..];
      ghost var m := Break(r);
      var u, after := CutTarget(at, rest);
      NoVersion(rest, r, m);
      if after.None? {
        version := None;
        return BAD_REQUEST;
      }
      ghost var target, v0 := r[..m], r[m + 1..];
      ghost var shown := v0[Span(v0)..];
      VersionThen(rest, r, m, target, v0, shown);
      var v := FindVersion(after.value, v0);
      version := Some(v);
      if !SameText(StringAt(buf[..], v), "HTTP/1.1") {
        return BAD_REQUEST;
      }
      var found := LocatePath(u, target);
      if !found {
        return BAD_REQUEST;
      }
      PointsWithin(buf[..], url, TargetPath(target).value, u + m + 2, at + |rest| + 2);
      PointsWithin(buf[..], version, shown, u + |r| + 1, at + |rest| + 2);
      checkState := CHECK_STATE_HEADER;
      return NO_REQUEST;
    }

    /** Lines 158-163: where the target starts, and what follows the blank that ends it. */
    method CutTarget(at: nat, ghost rest: string) returns (u: nat, after: Option<nat>)
      requires Holds(buf[..], at, rest)
      modifies buf
      ensures Blanked(old(buf[..]), buf[..])
      ensures buf[..at] == old(buf[..at]) && buf[at + |rest|..] == old(buf[at + |rest|..])
      ensures u == at + Span(rest)
      ensures var r := rest[Span(rest)..]; var m := Break(r);
              if m == |r| then after.None? else
              after == Some(u + m + 1) && Holds(buf[..], u, r[..m]) && Holds(buf[..], u + m + 1, r[m + 1..])
    {
      hide Break, Span, Holds, StringAt, Blanked, NoBlank, AllBlank, IsBlank, NulFree;
      ghost var b1 := buf[..];
      BlankedSelf(b1);
      HoldsIsStringAt(b1, at, rest);
      HoldsSuffix(b1, at, rest, Span(rest));
      u := at + Span(StringAt(buf[..], at));
      ghost var r := rest[Span(rest)..];
      HoldsIsStringAt(b1, u, r);
      var m := Break(StringAt(buf[..], u));
      if m == |StringAt(buf[..], u)| {
        return u, None;
      }
      HoldsCut(b1, u, r, m);
      BlankOne(b1, b1, u + m);
      OutsideSame(b1, u + m, at, at + |rest|);
      buf[u + m] := NUL;
      assert buf[..] == b1[u + m := NUL];
      return u, Some(u + m + 1);
    }

    /** Line 164. */
    method FindVersion(at: nat, ghost v0: string) returns (v: nat)
      requires Holds(buf[..], at, v0)
      ensures v == at + Span(v0) && StringAt(buf[..], v) == v0[Span(v0)..]
      ensures Points(buf[..], Some(v), v0[Span(v0)..], at + |v0| + 1)
    {
      hide Holds, StringAt, Span;
      HoldsIsStringAt(buf[..], at, v0);
      HoldsSuffix(buf[..], at, v0, Span(v0));
      v := at + Span(StringAt(buf[..], at));
      HoldsIsStringAt(buf[..], v, v0[Span(v0)..]);
    }

    /** Lines 168-175: skip "http://host" and insist on a path. */
    method LocatePath(u: nat, ghost target: string) returns (found: bool)
      requires Holds(buf[..], u, target)
      modifies this`url
      ensures found <==> TargetPath(target).Some?
      ensures found ==> Points(buf[..], url, TargetPath(target).value, u + |target| + 2)
    {
      hide SamePrefix, SameText, Find, Holds, StringAt;
      HoldsIsStringAt(buf[..], u, target);
      SamePrefixMeaning(target, "http://");
      url := Some(u);
      ghost var shown := target;
      if SamePrefix(StringAt(buf[..], u), "http://", 7) {
        HoldsSuffix(buf[..], u, target, 7);
        HoldsIsStringAt(buf[..], u + 7, target[7..]);
        var n := Find(StringAt(buf[..], u + 7), '/');
        url := if n == |StringAt(buf[..], u + 7)| then None else Some(u + 7 + n);
        shown := target[7..][n..];
        HoldsSuffix(buf[..], u + 7, target[7..], n);
      }
      if url.Some? { HoldsFirst(buf[..], url.value, shown); }
      found := url.Some? && buf[url.value] == '/';
    }

    /** parse_headers; the two terminators of the line are already NUL. */
    method ParseHeaders(text: nat, ghost line: string, ghost req: Request) returns (ret: HttpCode)
      requires Holds(buf[..], text, line) && text + |line| + 1 < buf.Length && buf[text + |line| + 1] == NUL
      requires Fields(req, text) && contentLength == 0
      modifies this`linger, this`contentLength, this`host
      ensures ret == (if line == [] then GET_REQUEST else NO_REQUEST) && contentLength == 0
      ensures Fields(if line == [] then req else HeaderLine(line, req), text + |line| + 2)
    {
      hide SamePrefix, SameText, Holds, StringAt, Span, Atol;
      HoldsIsStringAt(buf[..], text, line);
      HoldsFirst(buf[..], text, line);
      if buf[text] == NUL {
        if contentLength != 0 {
          assert false;  // no header gives the request a body
        }
        return GET_REQUEST;
      }
      SamePrefixMeaning(line, "Connection:");
      SamePrefixMeaning(line, "Content-Length");
      SamePrefixMeaning(line, "Host:");
      if SamePrefix(StringAt(buf[..], text), "Connection:", 11) {
        var arg := Skip(text + 11, line[11..], text, line);
        if SameText(StringAt(buf[..], arg), "keep-alive") {
          linger := true;
        }
      } else if SamePrefix(StringAt(buf[..], text), "Content-Length", 15) {
        SameLength(line, "Content-Length");
        EmptyAt(buf[..], text + 15);
        contentLength := Atol(StringAt(buf[..], text + 15 + Span(StringAt(buf[..], text + 15))));
      } else if SamePrefix(StringAt(buf[..], text), "Host:", 5) {
        var arg := Skip(text + 5, line[5..], text, line);
        host := Some(arg);
      }
      return NO_REQUEST;
    }

    /** text += n; text += strspn(text, " \t"); */
    method Skip(at: nat, ghost rest: string, ghost text: nat, ghost line: string) returns (arg: nat)
      requires Holds(buf[..], text, line) && text <= at <= text + |line| && rest == line[at - text..]
      ensures Points(buf[..], Some(arg), rest[Span(rest)..], text + |line| + 2)
      ensures StringAt(buf[..], arg) == rest[Span(rest)..]
    {
      hide Holds, StringAt, Span;
      HoldsSuffix(buf[..], text, line, at - text);
      HoldsIsStringAt(buf[..], at, rest);
      arg := at + Span(StringAt(buf[..], at));
      HoldsSuffix(buf[..], at, rest, Span(rest));
      HoldsIsStringAt(buf[..], arg, rest[Span(rest)..]);
    }

    /** What parse_line leaves for the line it has found. */
    ghost predicate LineFound(line: string)
      reads this, buf
    {
      && Received(checkedIdx) && Understood()
      && checkedIdx == startLine + |line| + 2
      && NextLine(input, startLine) == LineOk(checkedIdx) && line == input[startLine..checkedIdx - 2]
      && Holds(buf[..], startLine, line) && buf[checkedIdx - 1] == NUL && NoBreaks(buf[..], checkedIdx)
    }

    /** Lines 243-276: one turn of the main state machine. */
    method AnalyseLine(ghost line: string) returns (ret: HttpCode)
      requires LineFound(line)
      modifies buf, this`startLine, this`checkState, this`url, this`version, this`host, this`linger,
               this`contentLength, this`progress
      ensures ret == NO_REQUEST ==> Valid() && startLine == checkedIdx
      ensures ret == BAD_REQUEST ==> OneShot(input) == BadRequest
      ensures ret == GET_REQUEST ==> OneShot(input).DoRequest? && Fields(OneShot(input).req, READ_BUFFER_SIZE)
    {
      hide LineFound, Valid, OneShot, Fields;
      StateOfLine(line);
      match checkState {
        case CHECK_STATE_REQUESTLINE =>
          ret := TakeRequestLine(line);
        case CHECK_STATE_HEADER =>
          ret := TakeHeader(line);
        case CHECK_STATE_CONTENT =>
          assert false;  // unreachable: no header gives the request a body
      }
    }

    lemma StateOfLine(line: string)
      requires LineFound(line)
      ensures checkState != CHECK_STATE_CONTENT
    {
    }

    /** Lines 243-254. */
    method TakeRequestLine(ghost line: string) returns (ret: HttpCode)
      requires LineFound(line) && checkState == CHECK_STATE_REQUESTLINE
      modifies buf, this`startLine, this`checkState, this`url, this`version, this`progress
      ensures ret == NO_REQUEST ==> Valid() && startLine == checkedIdx
      ensures ret == BAD_REQUEST ==> OneShot(input) == BadRequest
      ensures ret != GET_REQUEST
    {
      hide Parse, NextLine, Points, RequestLine, NulFree, Holds, OneShot, Received, Blanked, NoBreaks;
      RoomForLine(line);
      var text := startLine;
      startLine := checkedIdx;
      OneRequestLine(input, text, checkedIdx);
      ret := ParseRequestLine(text, line);
      if ret == BAD_REQUEST {
        return BAD_REQUEST;
      }
      progress := Headers(RequestLine(line).value);
      RequestLinePlain(line);
      NextLineReady(line);
    }

    /** Lines 255-264. */
    method TakeHeader(ghost line: string) returns (ret: HttpCode)
      requires LineFound(line) && checkState == CHECK_STATE_HEADER
      modifies this`startLine, this`host, this`linger, this`contentLength, this`progress
      ensures ret == NO_REQUEST ==> Valid() && startLine == checkedIdx
      ensures ret == GET_REQUEST ==> OneShot(input).DoRequest? && Fields(OneShot(input).req, READ_BUFFER_SIZE)
      ensures ret != BAD_REQUEST
    {
      hide Parse, NextLine, Points, HeaderLine, NulFree, Holds, OneShot, Received, Blanked, NoBreaks;
      RoomForLine(line);
      var text := startLine;
      startLine := checkedIdx;
      OneHeaderLine(input, text, checkedIdx, progress.req);
      ret := ParseHeaders(text, line, progress.req);
      if ret == GET_REQUEST {
        StringsGrow(buf[..], url, version, host, progress.req, checkedIdx, READ_BUFFER_SIZE);
        return GET_REQUEST;
      }
      progress := Headers(HeaderLine(line, progress.req));
      BlankedSelf(buf[..]);
      NextLineReady(line);
    }

    lemma RoomForLine(line: string)
      requires LineFound(line)
      ensures checkedIdx <= |input| && buf.Length == READ_BUFFER_SIZE && |input| <= READ_BUFFER_SIZE
    {
    }

    /** The line is dealt with, and the next one starts where parse_line stopped. */
    twostate lemma NextLineReady(line: string)
      requires old(LineFound(line)) && startLine == checkedIdx == old(checkedIdx)
      requires readIdx == old(readIdx) && input == old(input) && rounds == old(rounds) && calls == old(calls)
      requires buf[old(startLine) + |line|..] == old(buf[startLine + |line|..]) && Blanked(old(buf[..]), buf[..])
      ensures Cursors()
    {
      hide NextLine, Parse, NulFree, CrLfFree, Understood, Holds, NoBreaks, Blanked;
      BlankedNoBreaks(old(buf[..]), buf[..], checkedIdx);
      ghost var at := old(startLine) + |line|;
      assert forall k :: at <= k < buf.Length ==> buf[k] == buf[at..][k - at];
      assert forall k :: at <= k < buf.Length ==> old(buf[k]) == old(buf[at..])[k - at];
      NoneLeft(input, startLine);
    }

    method SplitLine() returns (status: LineCode)
      requires Valid()
      modifies buf, this`checkedIdx, this`rounds, this`calls
      ensures status == LINE_OK ==> startLine + 2 <= checkedIdx <= readIdx
      ensures status == LINE_OK ==> LineFound(input[startLine..checkedIdx - 2])
      ensures status != LINE_OK ==> Valid() && OneShot(input) == NoRequest
    {
      hide Parse, NextLine, Strings, CrLfFree, NulFree, Holds, Received, Understood, NoBreaks;
      Bounds();
      status := ParseLine();
      StillReceived();
      StillUnderstood();
      if status == LINE_OK {
        LineIsHeld(old(buf[..]), buf[..], input, startLine, checkedIdx);
      } else {
        NoLine();
      }
    }

    /** parse_line has overwritten at most the two characters before checkedIdx. */
    twostate predicate LineCut()
      reads this, buf
    {
      && startLine == old(startLine) && readIdx == old(readIdx) && input == old(input)
      && startLine <= checkedIdx <= readIdx
      && rounds <= checkedIdx + calls && buf.Length == READ_BUFFER_SIZE && readIdx <= READ_BUFFER_SIZE
      && (buf[..] == old(buf[..]) ||
          (startLine + 2 <= checkedIdx && buf[..] == old(buf[..])[checkedIdx - 2 := NUL][checkedIdx - 1 := NUL]))
    }

    twostate lemma StillReceived()
      requires old(Cursors()) && LineCut()
      ensures Received(if buf[..] == old(buf[..]) then startLine else checkedIdx)
      ensures forall k :: startLine <= k < readIdx ==> old(buf[k]) == input[k]
    {
      hide NulFree, CrLfFree;
      assert forall k :: checkedIdx <= k < READ_BUFFER_SIZE ==> buf[k] == buf[..][k] == old(buf[..])[k];
      assert buf[..] == old(buf[..]) ==>
               forall k :: 0 <= k < READ_BUFFER_SIZE ==> buf[k] == buf[..][k] == old(buf[..])[k];
    }

    twostate lemma StillUnderstood()
      requires old(Understood()) && LineCut()
      requires progress == old(progress) && checkState == old(checkState) && contentLength == old(contentLength)
      requires linger == old(linger) && host == old(host) && url == old(url) && version == old(version)
      ensures Understood()
    {
      hide Parse, Strings;
      if progress.Headers? {
        assert buf[..][..startLine] == old(buf[..])[..startLine];
        StringsFrame(old(buf[..]), buf[..], url, version, host, progress.req, startLine);
      }
    }

    lemma NoLine()
      requires Understood() && !NextLine(input, startLine).LineOk?
      ensures OneShot(input) == NoRequest
    {
      hide Parse, NextLine, Strings;
      ParseComposes(input, 0, Start, startLine, progress);
      Stuck(input, startLine, progress);
    }

    /** The main state machine, called after every read. Its answer is the pure parser's answer to all the input. */
    method ProcessRead() returns (ret: HttpCode)
      requires Valid()
      modifies buf, this`checkedIdx, this`startLine, this`checkState, this`url, this`version, this`host, this`linger,
               this`contentLength, this`progress, this`rounds, this`calls
      ensures ret == NO_REQUEST ==> Valid() && OneShot(input) == NoRequest
      ensures ret == BAD_REQUEST ==> OneShot(input) == BadRequest
      ensures ret == GET_REQUEST ==> OneShot(input).DoRequest? && Fields(OneShot(input).req, READ_BUFFER_SIZE)
      ensures checkedIdx <= readIdx && rounds <= checkedIdx + calls
    {
      hide Parse, NextLine, Strings, CrLfFree, NulFree, Holds, OneShot;
      while true
        invariant Valid()
        decreases readIdx - startLine
      {
        var status := SplitLine();
        if status != LINE_OK {
          return NO_REQUEST;
        }
        ret := AnalyseLine(input[startLine..checkedIdx - 2]);
        if ret != NO_REQUEST {
          return ret;
        }
      }
    }
  }

  lemma NothingYet()
    ensures OneShot([]) == NoRequest
  {
    AtEnd([]);
  }

  lemma NulFreePart(s: string, from: nat, n: nat)
    requires NulFree(s) && from + n <= |s|
    ensures NulFree(s[from..from + n])
  {
  }

  lemma OutsideSame(b: string, i: nat, from: nat, to: nat)
    requires from <= i < to < |b|
    ensures b[i := NUL][..from] == b[..from] && b[i := NUL][to..] == b[to..]
  {
  }

  lemma NoVersion(rest: string, r: string, m: nat)
    requires r == rest[Span(rest)..] && m == Break(r)
    ensures m == |r| ==> AfterVerb(rest).None?
  {
    hide Break, Span;
  }

  lemma VersionThen(rest: string, r: string, m: nat, target: string, v0: string, version: string)
    requires r == rest[Span(rest)..] && m == Break(r) < |r| && target == r[..m] && v0 == r[m + 1..]
    requires version == v0[Span(v0)..]
    ensures AfterVerb(rest).Some? <==> SameText(version, "HTTP/1.1") && TargetPath(target).Some?
    ensures AfterVerb(rest).Some? ==> AfterVerb(rest) == Some(Request(TargetPath(target).value, version, None, false))
  {
    hide Break, Span, SameText, TargetPath;
  }

  lemma PointsWithin(b: string, p: Option<nat>, s: string, lim: nat, lim': nat)
    requires Points(b, p, s, lim) && lim <= lim'
    ensures Points(b, p, s, lim')
  {
  }

  lemma NoneLeft(b: string, n: nat)
    requires n <= |b|
    ensures b[n..n] == [] && CrLfFree(b[n..n])
  {
  }

  lemma RequestLinePlain(line: string)
    requires RequestLine(line).Some?
    ensures RequestLine(line).value.host.None? && !RequestLine(line).value.linger
  {
  }

  lemma HoldsFirst(b: string, i: nat, s: string)
    requires Holds(b, i, s)
    ensures i < |b| && b[i] == if s == [] then NUL else s[0]
    ensures s != [] ==> s[0] != NUL
  {
    if s != [] { assert b[i] == b[i..i + |s|][0]; }
  }

  lemma SameLength(a: string, b: string)
    requires SameText(a, b)
    ensures |a| == |b|
  {
  }

  lemma EmptyAt(b: string, i: nat)
    requires i < |b| && b[i] == NUL
    ensures StringAt(b, i) == [] && Span([]) == 0 && Atol([]) == 0
  {
  }

  /** A received line whose two terminators have been overwritten is a C string. */
  lemma LineIsHeld(before: string, after: string, b: string, start: nat, next: nat)
    requires start + 2 <= next <= |b| <= |before| && NulFree(b)
    requires forall k :: start <= k < |b| ==> before[k] == b[k]
    requires after == before[next - 2 := NUL][next - 1 := NUL]
    ensures Holds(after, start, b[start..next - 2]) && after[next - 1] == NUL
  {
    assert after[start..next - 2] == b[start..next - 2];
  }

  lemma Stuck(b: string, pos: nat, st: Progress)
    requires pos <= |b| && !NextLine(b, pos).LineOk?
    ensures Parse(b, pos, st) == Parsed(NoRequest, pos, st)
  {
  }

  lemma PrefixLine(b: string, pos: nat, next: nat)
    requires pos <= |b| && NextLine(b, pos) == LineOk(next)
    ensures NextLine(b[..next], pos) == LineOk(next) && b[..next][pos..next - 2] == b[pos..next - 2]
    ensures b[..next][..pos] == b[..pos]
  {
    hide FirstBreak, CrLfFree;
    var c := b[..next];
    assert c[pos..next - 2] == b[pos..next - 2];
    assert c[next - 2] == b[next - 2..next][0] && c[next - 1] == b[next - 2..next][1];
    NextLineIs(c, pos, next - 2);
  }

  /** One more complete line, pure: from the understanding of b[..pos] to that of b[..next]. */
  lemma ParseOneLine(b: string, pos: nat, next: nat)
    requires pos <= |b| && NextLine(b, pos) == LineOk(next)
    ensures var line := b[pos..next - 2];
            && Parse(b, pos, Start) == (if RequestLine(line).None? then Parsed(BadRequest, next, Start)
                                        else Parse(b, next, Headers(RequestLine(line).value)))
            && forall r :: Parse(b, pos, Headers(r)) == (if line == [] then Parsed(DoRequest(r), next, Headers(r))
                                                         else Parse(b, next, Headers(HeaderLine(line, r))))
  {
    hide NextLine, RequestLine, HeaderLine;
  }

  lemma OneRequestLine(b: string, pos: nat, next: nat)
    requires pos <= |b| && NextLine(b, pos) == LineOk(next)
    requires Parse(b[..pos], 0, Start) == Parsed(NoRequest, pos, Start)
    ensures var r := RequestLine(b[pos..next - 2]);
            if r.None? then OneShot(b) == BadRequest
            else Parse(b[..next], 0, Start) == Parsed(NoRequest, next, Headers(r.value))
  {
    hide NextLine, RequestLine, HeaderLine, Parse;
    PrefixLine(b, pos, next);
    ParseOneLine(b, pos, next);
    ParseOneLine(b[..next], pos, next);
    ParseComposes(b, 0, Start, pos, Start);
    ParseComposes(b[..next], 0, Start, pos, Start);
    AtEnd(b[..next]);
  }

  lemma OneHeaderLine(b: string, pos: nat, next: nat, r: Request)
    requires pos <= |b| && NextLine(b, pos) == LineOk(next)
    requires Parse(b[..pos], 0, Start) == Parsed(NoRequest, pos, Headers(r))
    ensures var line := b[pos..next - 2];
            if line == [] then OneShot(b) == DoRequest(r)
            else Parse(b[..next], 0, Start) == Parsed(NoRequest, next, Headers(HeaderLine(line, r)))
  {
    hide NextLine, HeaderLine, RequestLine, Parse;
    PrefixLine(b, pos, next);
    ParseOneLine(b, pos, next);
    ParseOneLine(b[..next], pos, next);
    ParseComposes(b, 0, Start, pos, Headers(r));
    ParseComposes(b[..next], 0, Start, pos, Headers(r));
    AtEnd(b[..next]);
  }

  lemma AtEnd(b: string)
    ensures forall st :: Parse(b, |b|, st) == Parsed(NoRequest, |b|, st)
  {
    NoBreakLeft(b, |b|);
  }

  lemma NoBreakGrows(b: string, from: nat, n: nat)
    requires from <= n < |b| && CrLfFree(b[from..n]) && !IsBreak(b[n])
    ensures CrLfFree(b[from..n + 1])
  {
    assert b[from..n + 1] == b[from..n] + [b[n]];
  }

  lemma NextLineIs(b: string, from: nat, n: nat)
    requires from <= n < |b| && CrLfFree(b[from..n]) && IsBreak(b[n])
    ensures NextLine(b, from) == if b[n] == LF then LineBad(n) else if n + 1 == |b| then LineOpen(n)
                                 else if b[n + 1] == LF then LineOk(n + 2) else LineBad(n)
  {
    FirstBreakIs(b, from, n);
  }

  lemma {:induction false} NoBreakLeft(b: string, from: nat)
    requires from <= |b| && CrLfFree(b[from..])
    ensures FirstBreak(b, from) == |b| && NextLine(b, from) == LineOpen(|b|)
    decreases |b| - from
  {
    if from < |b| {
      assert b[from] == b[from..][0];
      assert b[from + 1..] == b[from..][1..];
      NoBreakLeft(b, from + 1);
    }
  }
}
