/** Request framing of src/api/srv.c: requests are cut out of a byte stream that arrives
    in pieces of any size.  What the header block says is a parameter; the framing is
    the same for every way of reading it. */
module Http {

  type Bytes = seq<char>

  const MAX_HDR: nat := 8192
  const BUF_INIT: nat := 32768

  /** What the header block says: refused, or the body length and whether to close. */
  datatype Head = BadHead | GoodHead(bodyLen: nat, close: bool)

  datatype Req = Req(head: Bytes, body: Bytes, close: bool)

  /** How the stream ends: closed by the peer, or with an error. */
  datatype End = Closed | Broken

  /** max_body, and what reads header blocks. */
  datatype Limits = Limits(maxBody: int, parse: Bytes -> Head)

  function BodyCap(lim: Limits): nat {
    if lim.maxBody > 0 then lim.maxBody else 0
  }

  function MaxTotal(lim: Limits): (n: nat)
    ensures n > MAX_HDR + 4
  {
    (if lim.maxBody > 0 then lim.maxBody else 1048576) + MAX_HDR + 4
  }

  datatype Result = Got(req: Req, rest: Bytes) | Error(code: int)

  // ------------------------------------------------------------ where the header ends

  predicate EndsAt(s: Bytes, i: nat) {
    i + 3 < |s| && s[i] == '\r' && s[i + 1] == '\n' && s[i + 2] == '\r' && s[i + 3] == '\n'
  }

  /** The first blank line at or after position i, -1 if there is none. */
  function HdrFrom(s: Bytes, i: nat): (h: int)
    ensures h == -1 || (i <= h && EndsAt(s, h))
    ensures forall j :: i <= j && EndsAt(s, j) ==> 0 <= h <= j
    decreases |s| - i
  {
    if i + 3 >= |s| then -1 else if EndsAt(s, i) then i else HdrFrom(s, i + 1)
  }

  function HdrEnd(s: Bytes): int {
    HdrFrom(s, 0)
  }

  /** In a part of the stream the header end is found exactly when it is all there. */
  lemma HdrEndPart(p: Bytes, rest: Bytes)
    ensures HdrEnd(p) == if HdrEnd(p + rest) >= 0 && HdrEnd(p + rest) + 4 <= |p| then HdrEnd(p + rest) else -1
  {
    var s, h, g := p + rest, HdrEnd(p + rest), HdrEnd(p);
    if g >= 0 {
      assert EndsAt(s, g);
      assert 0 <= h <= g;
      assert EndsAt(p, h);
    } else if h >= 0 && h + 4 <= |p| {
      assert EndsAt(s, h);
      assert EndsAt(p, h);
    }
  }

  // ------------------------------------------------------------ framing of a whole stream

  function EndCode(s: Bytes, end: End): int {
    if s == [] && end.Closed? then 0 else 400
  }

  /** The first request of a stream. */
  function Frame(s: Bytes, end: End, lim: Limits): (r: Result)
    ensures r.Got? ==> |r.rest| < |s|
    ensures r.Error? ==> r.code in {0, 400, 413}
  {
    var h := HdrEnd(s);
    if h < 0 then Error(if |s| >= MAX_HDR then 413 else EndCode(s, end))
    else if h > MAX_HDR then Error(413)
    else
      match lim.parse(s[..h])
      case BadHead => Error(400)
      case GoodHead(n, close) =>
        if n > BodyCap(lim) || h + 4 + n > MaxTotal(lim) then Error(413)
        else if |s| < h + 4 + n then Error(400)
        else Got(Req(s[..h], s[h + 4..h + 4 + n], close), s[h + 4 + n..])
  }

  /** A header block that ends so close to the limit that it may or may not be seen in
      time. */
  predicate Gap(s: Bytes) {
    HdrEnd(s) >= 0 && MAX_HDR < HdrEnd(s) + 4 && HdrEnd(s) <= MAX_HDR
  }

  /** All requests of a stream, and the code it ends with; 200 when the client asked to
      close. */
  function Session(s: Bytes, end: End, lim: Limits): (seq<Req>, int)
    decreases |s|
  {
    match Frame(s, end, lim)
    case Error(code) => ([], code)
    case Got(req, rest) =>
      if req.close then ([req], 200)
      else
        var t := Session(rest, end, lim);
        ([req] + t.0, t.1)
  }

  /** No header block of the session is in the gap. */
  ghost predicate Clear(s: Bytes, end: End, lim: Limits)
    decreases |s|
  {
    && !Gap(s)
    && match Frame(s, end, lim)
       case Error(_) => true
       case Got(req, rest) => req.close || Clear(rest, end, lim)
  }

  /** The session of `all` is the requests so far and then the session of s. */
  ghost predicate SoFar(all: Bytes, reqs: seq<Req>, s: Bytes, end: End, lim: Limits) {
    Session(all, end, lim) == (reqs + Session(s, end, lim).0, Session(s, end, lim).1)
  }

  lemma SoFarStart(all: Bytes, end: End, lim: Limits)
    ensures SoFar(all, [], all, end, lim)
  {
    assert [] + Session(all, end, lim).0 == Session(all, end, lim).0;
  }

  lemma SoFarNext(all: Bytes, reqs: seq<Req>, s: Bytes, end: End, lim: Limits)
    requires SoFar(all, reqs, s, end, lim)
    ensures Frame(s, end, lim).Error? ==> Session(all, end, lim) == (reqs, Frame(s, end, lim).code)
    ensures Frame(s, end, lim).Got? && Frame(s, end, lim).req.close ==> Session(all, end, lim) == (reqs + [Frame(s, end, lim).req], 200)
    ensures Frame(s, end, lim).Got? && !Frame(s, end, lim).req.close ==>
              SoFar(all, reqs + [Frame(s, end, lim).req], Frame(s, end, lim).rest, end, lim)
  {
    match Frame(s, end, lim)
    case Error(_) => assert reqs + [] == reqs;
    case Got(req, rest) => assert reqs + ([req] + Session(rest, end, lim).0) == reqs + [req] + Session(rest, end, lim).0;
  }

  // ------------------------------------------------------------ a connection

  /** How much a read brings when the network has n bytes ready, there is room for `room`
      and `left` are still to come. */
  function Taken(n: nat, room: nat, left: nat): nat {
    var a := if n < 1 then 1 else n;
    var b := if a > room then room else a;
    if b > left then left else b
  }

  /** What parse_req reports agrees with the framing of the stream, and what is left then
      is what the framing leaves. */
  ghost predicate Agrees(r: Result, rc: int, req: Req, left: Bytes) {
    match r
    case Got(q, rest) => rc == 200 && req == q && left == rest
    case Error(code) => rc == code
  }

  class Conn {
    const lim: Limits
    const end: End
    const chunk: nat -> nat      // how much the network hands over at each read
    var tick: nat
    var buf: Bytes               // conn->buf up to conn->used
    var cap: nat
    var rest: Bytes              // what has not arrived yet

    ghost predicate Valid()
      reads this
    {
      |buf| <= cap <= MaxTotal(lim)
    }

    /** What has not been consumed: the buffer, and what is still to come. */
    ghost function Stream(): Bytes
      reads this
    {
      buf + rest
    }

    /** conn_init. */
    constructor (lim: Limits, end: End, chunk: nat -> nat, stream: Bytes)
      ensures Valid() && Stream() == stream && this.lim == lim && this.end == end
    {
      this.lim, this.end, this.chunk := lim, end, chunk;
      tick, buf, rest := 0, [], stream;
      cap := if MaxTotal(lim) < BUF_INIT then MaxTotal(lim) else BUF_INIT;
    }

    /** recv: at least one byte and at most `room`, unless the stream is at its end. */
    method Recv(room: nat) returns (n: nat)
      requires room > 0
      modifies this`tick, this`buf, this`rest
      ensures Stream() == old(Stream()) && |buf| == |old(buf)| + n && n <= room
      ensures n == Taken(chunk(old(tick)), room, |old(rest)|) && (n == 0 <==> old(rest) == [])
    {
      n := chunk(tick);
      tick := tick + 1;
      if n < 1 { n := 1; }
      if n > room { n := room; }
      if n > |rest| { n := |rest|; }
      buf, rest := buf + rest[..n], rest[n..];
    }

    /** The doubling loop of ensure_buffered. */
    method Grow(target: nat) returns (ncap: nat)
      requires Valid() && cap < target <= MaxTotal(lim)
      ensures target <= ncap <= MaxTotal(lim)
    {
      ncap := if cap > 0 then cap else BUF_INIT;
      while ncap < target
        invariant 0 < ncap
        decreases target - ncap
      {
        if ncap > MaxTotal(lim) / 2 {
          ncap := MaxTotal(lim);
          break;
        }
        ncap := ncap * 2;
      }
      if ncap > MaxTotal(lim) {
        ncap := MaxTotal(lim);
      }
    }

    /** ensure_buffered: reads until `target` bytes are there; the buffer never outgrows
        max_total and never loses a byte. */
    method EnsureBuffered(target: nat) returns (rc: int)
      requires Valid()
      modifies this
      ensures Valid() && Stream() == old(Stream()) && |buf| >= |old(buf)|
      ensures rc == 200 <==> |buf| >= target
      ensures |old(Stream())| >= target && target <= MaxTotal(lim) ==> rc == 200
      ensures |old(buf)| < target && target > MaxTotal(lim) ==> rc == 413
      ensures |old(Stream())| < target <= MaxTotal(lim) ==> rc == EndCode(Stream(), end)
      ensures |old(buf)| < target && rc == 200 ==> |buf| > |old(buf)|
      ensures target == |old(buf)| + 1 <= old(cap) && rc == 200 ==> |buf| == |old(buf)| + Taken(chunk(old(tick)), old(cap) - |old(buf)|, |old(rest)|)
    {
      while |buf| < target
        invariant Valid() && Stream() == old(Stream()) && |buf| >= |old(buf)|
        invariant |buf| != |old(buf)| ==> target <= MaxTotal(lim)
        invariant |buf| == |old(buf)| ==> tick == old(tick) && cap == old(cap) && rest == old(rest)
        invariant |buf| != |old(buf)| && target == |old(buf)| + 1 <= old(cap) ==>
                    |buf| == |old(buf)| + Taken(chunk(old(tick)), old(cap) - |old(buf)|, |old(rest)|)
        decreases |rest|
      {
        if target > MaxTotal(lim) {
          return 413;
        }
        if cap < target {
          cap := Grow(target);
        }
        var n := Recv(cap - |buf|);
        if n == 0 {
          assert Stream() == buf;
          return if end.Closed? && buf == [] then 0 else 400;
        }
      }
      rc := 200;
    }

    /** find_hdr_end. */
    method FindHdrEnd() returns (h: int)
      ensures h == HdrEnd(buf)
    {
      h := 0;
      while h + 3 < |buf|
        invariant 0 <= h && HdrFrom(buf, h) == HdrEnd(buf)
        decreases |buf| - h
      {
        if buf[h] == '\r' && buf[h + 1] == '\n' && buf[h + 2] == '\r' && buf[h + 3] == '\n' {
          return;
        }
        h := h + 1;
      }
      h := -1;
    }

    /** The first loop of parse_req: read until the header end is in the buffer. */
    method ReadHeader() returns (rc: int, h: int)
      requires Valid()
      modifies this
      ensures Valid() && Stream() == old(Stream())
      ensures rc == 200 ==> h == HdrEnd(Stream()) && 0 <= h && h + 4 <= |buf|
      ensures HdrEnd(old(Stream())) >= 0 ==> rc == 200 || (rc == 413 && HdrEnd(old(Stream())) + 4 > MAX_HDR)
      ensures HdrEnd(old(Stream())) < 0 ==> rc == if |old(Stream())| >= MAX_HDR then 413 else EndCode(old(Stream()), end)
      // in the gap it is the size of the first read that decides
      ensures Gap(old(Stream())) && old(buf) == [] && old(cap) >= MAX_HDR && chunk(old(tick)) == MAX_HDR ==> rc == 413
      ensures Gap(old(Stream())) && old(buf) == [] && old(cap) >= MAX_HDR + 4 && chunk(old(tick)) >= MAX_HDR + 4 ==> rc == 200
    {
      ghost var first := Taken(chunk(tick), cap, |rest|);
      h := FindHdrEnd();
      HdrEndPart(buf, rest);
      while h < 0
        invariant Valid() && Stream() == old(Stream()) && h == HdrEnd(buf)
        invariant old(buf) == [] && old(cap) >= MAX_HDR ==> (buf == [] && tick == old(tick) && cap == old(cap) && rest == old(rest)) || |buf| == first || first < MAX_HDR
        invariant h == if HdrEnd(Stream()) >= 0 && HdrEnd(Stream()) + 4 <= |buf| then HdrEnd(Stream()) else -1
        decreases |Stream()| - |buf|
      {
        if |buf| >= MAX_HDR {
          return 413, h;
        }
        rc := EnsureBuffered(|buf| + 1);
        if rc != 200 {
          return;
        }
        HdrEndPart(buf, rest);
        h := FindHdrEnd();
      }
      rc := 200;
    }

    /** parse_req: outside the gap the report depends on the stream alone, not on how it
        arrived; in the gap it is that, or 413. */
    method ParseReq() returns (rc: int, req: Req)
      requires Valid()
      modifies this
      ensures Valid()
      ensures Agrees(Frame(old(Stream()), end, lim), rc, req, Stream()) || (Gap(old(Stream())) && rc == 413)
    {
      req := Req([], [], false);
      ghost var s := Stream();
      var h;
      rc, h := ReadHeader();
      if rc != 200 {
        return;
      }
      assert buf[..h] == s[..h];
      if h > MAX_HDR {
        return 413, req;
      }
      var head := lim.parse(buf[..h]);
      if head.BadHead? {
        return 400, req;
      }
      if head.bodyLen > BodyCap(lim) {
        return 413, req;
      }
      var total := h + 4 + head.bodyLen;
      if total > MaxTotal(lim) {
        return 413, req;
      }
      rc := EnsureBuffered(total);
      if rc != 200 {
        return;
      }
      assert buf[h + 4..total] == s[h + 4..total] && buf[total..] + rest == s[total..];
      req := Req(buf[..h], buf[h + 4..total], head.close);
      buf := buf[total..];
    }

    /** conn_run, as far as framing goes: the requests of a connection, in order, and the
        code it ends with, are those of its byte stream. */
    method Serve() returns (reqs: seq<Req>, code: int)
      requires Valid() && Clear(Stream(), end, lim)
      modifies this
      ensures (reqs, code) == Session(old(Stream()), end, lim)
    {
      reqs := [];
      ghost var all := Stream();
      SoFarStart(all, end, lim);
      while true
        invariant Valid() && Clear(Stream(), end, lim) && SoFar(all, reqs, Stream(), end, lim) == true
        decreases |Stream()|
      {
        SoFarNext(all, reqs, Stream(), end, lim);
        var rc, req := ParseReq();
        if rc != 200 {
          return reqs, rc;
        }
        reqs := reqs + [req];
        if req.close {
          return reqs, 200;
        }
      }
    }
  }
}
