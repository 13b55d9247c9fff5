/** Framing undoes sending: what a client wrote is what the server gets, however the bytes
    arrive (src/api/srv.c:80-136, 152-219, 249-316; section 6 of RFC 9112). */
module HttpRuns {
  import opened Basics
  import opened Http

  const CRLF2: Bytes := ['\r', '\n', '\r', '\n']

  /** A request as it is sent: the header block, a blank line, and the body. */
  function Sent(q: Req): Bytes {
    q.head + CRLF2 + q.body
  }

  ghost predicate BlankLineAt(s: Bytes, i: nat) {
    i + 4 <= |s| && s[i..i + 4] == CRLF2
  }

  /** The bytes have no blank line before position n. */
  ghost predicate NoBlankLine(s: Bytes, n: nat) {
    forall i :: 0 <= i < n ==> !BlankLineAt(s, i)
  }

  /** A request that can be sent: the header block ends at its first blank line, fits, and
      announces the body, which is not too long. */
  ghost predicate Sendable(q: Req, lim: Limits) {
    && NoBlankLine(q.head + CRLF2, |q.head|) && |q.head| + 4 <= 8192
    && lim.parse(q.head) == GoodHead(|q.body|, q.close) && (q.body == [] || |q.body| <= lim.maxBody)
  }

  lemma EndsAtIs(s: Bytes, i: nat)
    ensures EndsAt(s, i) <==> BlankLineAt(s, i)
  {
    if i + 4 <= |s| {
      var t := s[i..i + 4];
      assert t == [s[i], s[i + 1], s[i + 2], s[i + 3]];
    }
  }

  /** The header block ends where its blank line is, whatever follows. */
  lemma HeadFound(head: Bytes, rest: Bytes)
    requires NoBlankLine(head + CRLF2, |head|)
    ensures HdrEnd(head + CRLF2 + rest) == |head|
  {
    var p := head + CRLF2;
    HdrEndPart(p, rest);
    EndsAtIs(p, |head|);
    assert p[|head|..|head| + 4] == CRLF2;
    var h := HdrEnd(p);
    EndsAtIs(p, h);
    assert EndsAt(p, |head|) && 0 <= h <= |head|;
  }

  lemma Pieces(q: Req, tail: Bytes)
    ensures var s, h := Sent(q) + tail, |q.head|;
            && |s| == h + 4 + |q.body| + |tail| && s[..h] == q.head && s[h + 4..h + 4 + |q.body|] == q.body && s[h + 4 + |q.body|..] == tail
            && s == q.head + CRLF2 + (q.body + tail)
  {
  }

  /** The first request of a stream that starts with a sent one is that one, and what is
      left is what follows it. */
  lemma FrameSent(q: Req, tail: Bytes, end: End, lim: Limits)
    requires Sendable(q, lim)
    ensures Frame(Sent(q) + tail, end, lim) == Got(q, tail) && !Gap(Sent(q) + tail)
  {
    Pieces(q, tail);
    HeadFound(q.head, q.body + tail);
  }

  function SentAll(qs: seq<Req>): Bytes {
    if qs == [] then [] else Sent(qs[0]) + SentAll(qs[1..])
  }

  /** Requests none of which asks to close come out in their order, and then those of what
      follows. */
  lemma {:induction false} SessionSent(qs: seq<Req>, tail: Bytes, end: End, lim: Limits)
    requires forall i :: 0 <= i < |qs| ==> Sendable(qs[i], lim) && !qs[i].close
    ensures Session(SentAll(qs) + tail, end, lim) == (qs + Session(tail, end, lim).0, Session(tail, end, lim).1)
    ensures Clear(SentAll(qs) + tail, end, lim) <==> Clear(tail, end, lim)
  {
    if qs == [] {
      assert SentAll(qs) + tail == tail && qs + Session(tail, end, lim).0 == Session(tail, end, lim).0;
    } else {
      Assoc(Sent(qs[0]), SentAll(qs[1..]), tail);
      SessionNext(qs[0], SentAll(qs[1..]) + tail, end, lim);
      SessionSent(qs[1..], tail, end, lim);
      Assoc([qs[0]], qs[1..], Session(tail, end, lim).0);
      assert [qs[0]] + qs[1..] == qs;
    }
  }

  lemma SessionNext(q: Req, rest: Bytes, end: End, lim: Limits)
    requires Sendable(q, lim) && !q.close
    ensures Session(Sent(q) + rest, end, lim) == ([q] + Session(rest, end, lim).0, Session(rest, end, lim).1)
    ensures Clear(Sent(q) + rest, end, lim) <==> Clear(rest, end, lim)
  {
    FrameSent(q, rest, end, lim);
  }

  /** One that asks to close is the last. */
  lemma SessionCloses(q: Req, tail: Bytes, end: End, lim: Limits)
    requires Sendable(q, lim) && q.close
    ensures Session(Sent(q) + tail, end, lim) == ([q], 200) && Clear(Sent(q) + tail, end, lim)
  {
    FrameSent(q, tail, end, lim);
  }

  // ------------------------------------------------------------ what goes wrong

  /** The end of the stream: nothing more to read is no error, unless the connection broke. */
  lemma EndOfStream(lim: Limits)
    ensures Session([], Closed, lim) == ([], 0) && Session([], Broken, lim) == ([], 400)
  {
  }

  /** A header block that announces more than the limit is refused with 413, whether or not
      the body is there; one that cannot be read with 400; and 400 when the stream ends
      inside the body. */
  lemma Refusals(head: Bytes, rest: Bytes, end: End, lim: Limits)
    requires NoBlankLine(head + CRLF2, |head|) && |head| + 4 <= 8192
    ensures var s := head + CRLF2 + rest;
            match lim.parse(head)
            case BadHead => Frame(s, end, lim) == Error(400)
            case GoodHead(n, _) =>
              && (n > 0 && n > lim.maxBody ==> Frame(s, end, lim) == Error(413))
              && ((n == 0 || n <= lim.maxBody) && |rest| < n ==> Frame(s, end, lim) == Error(400))
  {
    HeadFound(head, rest);
    var s := head + CRLF2 + rest;
    assert s[..|head|] == head && |s| == |head| + 4 + |rest|;
  }

  /** A stream without a blank line: 413 from 8192 bytes on, 400 below, and 0 when it is
      empty and closed. */
  lemma NoHeader(s: Bytes, end: End, lim: Limits)
    requires NoBlankLine(s, |s|)
    ensures Frame(s, end, lim) == Error(if |s| >= 8192 then 413 else if s == [] && end == Closed then 0 else 400)
  {
    var h := HdrEnd(s);
    if h >= 0 {
      EndsAtIs(s, h);
    }
  }

  /** A header block of more than 8192 bytes is refused. */
  lemma LongHeader(head: Bytes, rest: Bytes, end: End, lim: Limits)
    requires NoBlankLine(head + CRLF2, |head|) && |head| > 8192
    ensures Frame(head + CRLF2 + rest, end, lim) == Error(413)
  {
    HeadFound(head, rest);
  }

  // ------------------------------------------------------------ over a connection

  /** Over a connection that hands the bytes over in pieces of any size, the server gets
      exactly the requests that were sent, in order and each with its own body, up to the
      first that asks to close, and then the end of the stream. */
  method ServeSent(qs: seq<Req>, lim: Limits, end: End, chunk: nat -> nat) returns (reqs: seq<Req>, code: int)
    requires forall i :: 0 <= i < |qs| ==> Sendable(qs[i], lim) && !qs[i].close
    ensures reqs == qs && code == if end == Closed then 0 else 400
  {
    var conn := new Conn(lim, end, chunk, SentAll(qs));
    SessionSent(qs, [], end, lim);
    assert SentAll(qs) + [] == SentAll(qs) && qs + [] == qs;
    EndOfStream(lim);
    reqs, code := conn.Serve();
  }

  method ServeUntilClose(qs: seq<Req>, last: Req, tail: Bytes, lim: Limits, end: End, chunk: nat -> nat) returns (reqs: seq<Req>, code: int)
    requires (forall i :: 0 <= i < |qs| ==> Sendable(qs[i], lim) && !qs[i].close) && Sendable(last, lim) && last.close
    ensures reqs == qs + [last] && code == 200
  {
    var conn := new Conn(lim, end, chunk, SentAll(qs) + (Sent(last) + tail));
    SessionSent(qs, Sent(last) + tail, end, lim);
    SessionCloses(last, tail, end, lim);
    reqs, code := conn.Serve();
  }
}
