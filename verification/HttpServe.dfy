/** A connection from its first byte to the answer: read() and process_read() in turn, as the event loop calls them. */
module HttpServe {
  import opened HttpText
  import opened HttpGrammar
  import opened HttpConnModel
  import opened Wrappers

  /** What a read stores of the pending bytes. */
  function Taken(got: string, pending: string): string
    requires |got| <= READ_BUFFER_SIZE
  {
    if |got| + |pending| <= READ_BUFFER_SIZE then pending else pending[..READ_BUFFER_SIZE - |got|]
  }

  /** The answer when the input arrives in the given reads from a peer that stays open; None means that read() failed
      and closed the connection. `zeroAgain` is how recv answers when it is asked for 0 bytes (HttpConn.Read). Bytes
      that did not fit stay pending: the connection is reported once more, and then read() finds the buffer full. */
  function Served(got: string, chunks: seq<string>, zeroAgain: bool): Option<Verdict>
    requires |got| <= READ_BUFFER_SIZE
    decreases |chunks|
  {
    if chunks == [] then Some(NoRequest)
    else if |got| == READ_BUFFER_SIZE then None
    else if |got| + |chunks[0]| >= READ_BUFFER_SIZE && !zeroAgain then None
    else
      var now := got + Taken(got, chunks[0]);
      if !OneShot(now).NoRequest? then Some(OneShot(now))
      else if |got| + |chunks[0]| > READ_BUFFER_SIZE then None
      else Served(now, chunks[1..], zeroAgain)
  }

  ghost predicate Answers(conn: HttpConn, ret: Option<HttpCode>, served: Option<Verdict>)
    reads conn, conn.buf
  {
    match served
    case None => ret.None?
    case Some(NoRequest) => ret == Some(NO_REQUEST)
    case Some(BadRequest) => ret == Some(BAD_REQUEST)
    case Some(DoRequest(req)) => ret == Some(GET_REQUEST) && conn.Fields(req, READ_BUFFER_SIZE)
  }

  /** read() and process_read() after every arrival, until one of them ends it. */
  method Serve(conn: HttpConn, chunks: seq<string>, zeroAgain: bool) returns (ret: Option<HttpCode>)
    requires conn.Valid() && conn.input == [] && NulFree(Flatten(chunks))
    modifies conn, conn.buf
    ensures Answers(conn, ret, Served([], chunks, zeroAgain))
  {
    hide HttpConn.Valid, HttpConn.Fields, NulFree, OneShot;
    var i := 0;
    assert chunks[0..] == chunks;
    conn.Bounds();
    while i < |chunks|
      invariant 0 <= i <= |chunks| && conn.Valid() && |conn.input| <= READ_BUFFER_SIZE
      invariant NulFree(Flatten(chunks[i..]))
      invariant Served(conn.input, chunks[i..], zeroAgain) == Served([], chunks, zeroAgain)
    {
      FirstRead(chunks, i);
      conn.Bounds();
      ghost var got := conn.input;
      var room := READ_BUFFER_SIZE - conn.readIdx;
      var ok := conn.Read(chunks[i], true, zeroAgain);
      assert conn.input == got + Taken(got, chunks[i]);
      if !ok {
        return None;
      }
      var code := conn.ProcessRead();
      if code != NO_REQUEST {
        return Some(code);
      }
      conn.Bounds();
      if |chunks[i]| > room {
        NulFreeRest(chunks[i], room);
        ok := conn.Read(chunks[i][room..], true, zeroAgain);
        assert !ok;
        return None;
      }
      i := i + 1;
    }
    return Some(NO_REQUEST);
  }

  lemma NulFreeRest(s: string, from: nat)
    requires NulFree(s) && from <= |s|
    ensures NulFree(s[from..])
  {
  }

  lemma FirstRead(chunks: seq<string>, i: nat)
    requires i < |chunks| && NulFree(Flatten(chunks[i..]))
    ensures NulFree(chunks[i]) && NulFree(Flatten(chunks[i + 1..]))
    ensures chunks[i..][0] == chunks[i] && chunks[i..][1..] == chunks[i + 1..]
  {
  }

  /** An answer, when there is one, is that of one read of all the bytes, however they are cut. */
  lemma {:induction false} AnswerIsOneShot(got: string, chunks: seq<string>, zeroAgain: bool)
    requires OneShot(got).NoRequest? && |got| <= READ_BUFFER_SIZE && Served(got, chunks, zeroAgain).Some?
    ensures Served(got, chunks, zeroAgain) == Some(OneShot(got + Flatten(chunks)))
    decreases |chunks|
  {
    hide OneShot;
    if chunks == [] {
      assert got + [] == got;
    } else {
      var rest := Flatten(chunks[1..]);
      var taken := Taken(got, chunks[0]);
      assert chunks[0] == taken + chunks[0][|taken|..];
      assert got + (chunks[0] + rest) == got + taken + (chunks[0][|taken|..] + rest);
      if OneShot(got + taken).NoRequest? {
        AnswerIsOneShot(got + taken, chunks[1..], zeroAgain);
        assert chunks[0][|taken|..] + rest == rest;
      } else {
        VerdictStands(got + taken, chunks[0][|taken|..] + rest);
      }
    }
  }

  /** The k-th read is the one that fills the buffer, nothing has been answered before it, and recv's answer to a
      request for 0 bytes, or whatever is still to come, closes the connection. */
  ghost predicate ClosedBy(got: string, chunks: seq<string>, k: nat, zeroAgain: bool) {
    && k < |chunks|
    && |got| + |Flatten(chunks[..k])| < READ_BUFFER_SIZE <= |got| + |Flatten(chunks[..k + 1])|
    && OneShot(got + Flatten(chunks[..k])).NoRequest?
    && (zeroAgain ==>
          && OneShot((got + Flatten(chunks[..k + 1]))[..READ_BUFFER_SIZE]).NoRequest?
          && (|got| + |Flatten(chunks[..k + 1])| > READ_BUFFER_SIZE || k + 1 < |chunks|))
  }

  lemma ClosedByFirst(got: string, chunks: seq<string>, zeroAgain: bool)
    requires chunks != [] && |got| < READ_BUFFER_SIZE && OneShot(got).NoRequest?
    ensures ClosedBy(got, chunks, 0, zeroAgain) <==>
            && |got| + |chunks[0]| >= READ_BUFFER_SIZE
            && (zeroAgain ==> OneShot(got + Taken(got, chunks[0])).NoRequest?
                              && (|got| + |chunks[0]| > READ_BUFFER_SIZE || 1 < |chunks|))
  {
    hide OneShot;
    assert chunks[..0] == [] && got + [] == got;
    assert chunks[..1] == [chunks[0]] && Flatten([chunks[0]]) == chunks[0] + [] == chunks[0];
    if |got| + |chunks[0]| >= READ_BUFFER_SIZE {
      assert (got + chunks[0])[..READ_BUFFER_SIZE] == got + Taken(got, chunks[0]);
    }
  }

  lemma ClosedByLater(got: string, chunks: seq<string>, k: nat, zeroAgain: bool)
    requires chunks != []
    ensures ClosedBy(got, chunks, k + 1, zeroAgain) <==> ClosedBy(got + chunks[0], chunks[1..], k, zeroAgain)
  {
    hide OneShot;
    if k + 1 < |chunks| { Tails(got, chunks, k); }
  }

  /** With something received beyond the point where a verdict falls, no read closes the connection any more. */
  lemma NotClosedAfter(got: string, chunks: seq<string>, k: nat, zeroAgain: bool)
    requires !OneShot(got).NoRequest?
    ensures !ClosedBy(got, chunks, k, zeroAgain)
  {
    if k < |chunks| { VerdictStands(got, Flatten(chunks[..k])); }
  }

  /** A buffer that is full by now is not filled by a later read. */
  lemma NotClosedFull(got: string, chunks: seq<string>, k: nat, zeroAgain: bool)
    requires |got| >= READ_BUFFER_SIZE
    ensures !ClosedBy(got, chunks, k, zeroAgain)
  {
  }

  /** The connection is closed exactly when some read does so in that way. */
  lemma {:induction false} ClosedExactly(got: string, chunks: seq<string>, zeroAgain: bool)
    requires OneShot(got).NoRequest? && |got| < READ_BUFFER_SIZE
    ensures Served(got, chunks, zeroAgain).None? <==> exists k: nat :: ClosedBy(got, chunks, k, zeroAgain)
    decreases |chunks|
  {
    hide OneShot, ClosedBy;
    if chunks == [] {
      NeverClosed(got, zeroAgain);
    } else {
      var next, tail := got + chunks[0], chunks[1..];
      ClosedByFirst(got, chunks, zeroAgain);
      forall k: nat ensures ClosedBy(got, chunks, k + 1, zeroAgain) <==> ClosedBy(next, tail, k, zeroAgain) {
        ClosedByLater(got, chunks, k, zeroAgain);
        if |next| >= READ_BUFFER_SIZE { NotClosedFull(next, tail, k, zeroAgain); }
        if !OneShot(next).NoRequest? { NotClosedAfter(next, tail, k, zeroAgain); }
      }
      if |next| < READ_BUFFER_SIZE && OneShot(next).NoRequest? {
        ClosedExactly(next, tail, zeroAgain);
      }
      forall k: nat | ClosedBy(got, chunks, k, zeroAgain)
        ensures k == 0 || ClosedBy(next, tail, k - 1, zeroAgain)
      {
        assert k > 0 ==> ClosedBy(got, chunks, (k - 1) + 1, zeroAgain);
      }
      if |next| >= READ_BUFFER_SIZE || !OneShot(next).NoRequest? {
        forall k: nat ensures !ClosedBy(next, tail, k, zeroAgain) {
          if |next| >= READ_BUFFER_SIZE { NotClosedFull(next, tail, k, zeroAgain); }
          else { NotClosedAfter(next, tail, k, zeroAgain); }
        }
      }
    }
  }

  lemma NeverClosed(got: string, zeroAgain: bool)
    ensures forall k: nat :: !ClosedBy(got, [], k, zeroAgain)
  {
  }

  /** The connection answers as one read of all the bytes would, unless some read closes it; below READ_BUFFER_SIZE
      none does. */
  lemma ServedExactly(chunks: seq<string>, zeroAgain: bool)
    ensures Served([], chunks, zeroAgain) == Some(OneShot(Flatten(chunks))) <==>
            !exists k: nat :: ClosedBy([], chunks, k, zeroAgain)
    ensures |Flatten(chunks)| < READ_BUFFER_SIZE ==>
              Served([], chunks, zeroAgain) == Some(OneShot(Flatten(chunks)))
  {
    hide OneShot, Served;
    NothingYet();
    ClosedExactly([], chunks, zeroAgain);
    if Served([], chunks, zeroAgain).Some? {
      AnswerIsOneShot([], chunks, zeroAgain);
      assert [] + Flatten(chunks) == Flatten(chunks);
    }
    forall k: nat | ClosedBy([], chunks, k, zeroAgain)
      ensures |Flatten(chunks)| >= READ_BUFFER_SIZE
    {
      FlattenPrefix(chunks, k + 1);
    }
  }

  lemma {:induction false} FlattenPrefix(chunks: seq<string>, k: nat)
    requires k <= |chunks|
    ensures |Flatten(chunks[..k])| <= |Flatten(chunks)|
  {
    if k > 0 {
      assert chunks[..k][1..] == chunks[1..][..k - 1];
      FlattenPrefix(chunks[1..], k - 1);
    }
  }

  lemma Tails(got: string, chunks: seq<string>, k: nat)
    requires chunks != [] && k < |chunks| - 1
    ensures got + Flatten(chunks[..k + 1]) == got + chunks[0] + Flatten(chunks[1..][..k])
    ensures got + Flatten(chunks[..k + 2]) == got + chunks[0] + Flatten(chunks[1..][..k + 1])
  {
    assert chunks[..k + 1][1..] == chunks[1..][..k] && chunks[..k + 2][1..] == chunks[1..][..k + 1];
    assert chunks[..k + 1][0] == chunks[0] && chunks[..k + 2][0] == chunks[0];
  }

  /** Where a recv of 0 bytes answers 0, the cut does matter at READ_BUFFER_SIZE bytes: a request followed by filler is
      answered when it arrives by itself, and refused when the filler comes in the same read. Where it answers EAGAIN,
      these bytes are answered either way. */
  lemma FullBufferDependsOnTheCut()
    ensures var request, filler := "GET / HTTP/1.1" + CRLF + CRLF, seq(READ_BUFFER_SIZE - 18, _ => 'x');
            var answer := Some(DoRequest(Request("/", "HTTP/1.1", None, false)));
            && |request + filler| == READ_BUFFER_SIZE == 2048
            && Served([], [request, filler], false) == answer && Served([], [request + filler], false) == None
            && Served([], [request, filler], true) == answer && Served([], [request + filler], true) == answer
  {
    AloneIsAnswered();
    TwoCuts("GET / HTTP/1.1" + CRLF + CRLF, seq(READ_BUFFER_SIZE - 18, _ => 'x'),
            Request("/", "HTTP/1.1", None, false));
  }

  lemma AloneIsAnswered()
    ensures OneShot("GET / HTTP/1.1" + CRLF + CRLF) == DoRequest(Request("/", "HTTP/1.1", None, false))
  {
    var first, r := "GET / HTTP/1.1", Request("/", "HTTP/1.1", None, false);
    hide OneShot, IsRequest, Says, Render;
    PlainSays(first, r);
    NoLines();
    assert ProperHeaders([]);
    IsRequestFrom(first, [], r);
    assert first + CRLF + [] + CRLF == first + CRLF + CRLF;
    AcceptsGrammar(first + CRLF + CRLF, r);
  }

  lemma PlainSays(first: string, r: Request)
    requires first == "GET / HTTP/1.1" && r == Request("/", "HTTP/1.1", None, false)
    ensures CrLfFree(first) && Says(first, [], r)
  {
    hide Says, IsRequestLine;
    PlainLine();
    SaysNoHeader(first, r);
  }

  lemma PlainLine()
    ensures IsRequestLine("GET / HTTP/1.1", "/", "HTTP/1.1")
  {
    assert SameWord("GET", "GET") && SameWord("HTTP/1.1", "HTTP/1.1") && IsGap(" ") && IsSolid("/");
    assert IsTarget("/", "/");
    hide SameWord, IsTarget, IsGap, IsSolid, IsRequestLine;
    LineFrom("GET", " ", "/", " ", "HTTP/1.1", "/");
    assert "GET / HTTP/1.1" == "GET" + " " + "/" + " " + "HTTP/1.1";
  }

  lemma TwoCuts(request: string, filler: string, req: Request)
    requires OneShot(request) == DoRequest(req) && |request| < READ_BUFFER_SIZE == |request + filler|
    ensures Served([], [request, filler], false) == Some(DoRequest(req))
    ensures Served([], [request + filler], false) == None
    ensures Served([], [request, filler], true) == Served([], [request + filler], true) == Some(DoRequest(req))
  {
    hide OneShot;
    assert [] + request == request && [] + (request + filler) == request + filler;
    VerdictStands(request, filler);
  }
}
