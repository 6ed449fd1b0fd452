/** Response bodies, and buffering them without losing a byte. */
module Body {
  import opened Strings
  import opened Numbers
  import opened Headers

  datatype Status = More | EOF | Error

  /** An io.Reader: it still holds `rest`, and then ends, or fails if broken. */
  class Stream {
    var rest: Bytes
    const broken: bool

    constructor (rest: Bytes, broken: bool)
      ensures this.rest == rest && this.broken == broken
    {
      this.rest, this.broken := rest, broken;
    }

    /** Reads any number of bytes, at least one or the end if there is room. The
        end may be reported together with the last bytes or on its own. */
    method Read(dst: array<byte>, from: nat, limit: nat) returns (n: nat, status: Status)
      requires from + limit <= dst.Length
      modifies this, dst
      ensures n <= limit && n <= |old(rest)| && rest == old(rest)[n..]
      ensures dst[..from] == old(dst[..from]) && dst[from..from + n] == old(rest)[..n]
      ensures status != More ==> rest == [] && status == if broken then Error else EOF
      ensures limit > 0 && n == 0 ==> status != More
    {
      n :| 0 <= n <= limit && n <= |rest| && (limit > 0 && rest != [] ==> n > 0);
      for k := 0 to n
        invariant rest == old(rest)
        invariant dst[..from] == old(dst[..from]) && dst[from..from + k] == rest[..k]
      {
        dst[from + k] := rest[k];
        assert rest[..k + 1] == rest[..k] + [rest[k]];
      }
      rest := rest[n..];
      status := More;
      var atOnce: bool :| true;
      if rest == [] && (atOnce || n == 0) {
        status := if broken then Error else EOF;
      }
    }
  }

  const INITIAL_SIZE := 512

  /** Reads at most maxBody + 1 bytes. The buffer starts at the size the hint
      gives, and a hint that is accurate and within the limit never grows it. */
  method ReadUpTo(r: Stream, contentLength: int, maxBody: int) returns (buf: array<byte>, len: nat, failed: bool,
          ghost grown: bool)
    requires maxBody < MAX_INT64
    modifies r
    ensures fresh(buf) && len <= buf.Length
    ensures buf[..len] + r.rest == old(r.rest)
    ensures failed ==> r.rest == [] && r.broken
    ensures !failed && len <= maxBody <==> !r.broken && |old(r.rest)| <= maxBody
    ensures !failed && len <= maxBody ==> r.rest == []
    ensures 0 < contentLength == |old(r.rest)| && contentLength <= maxBody ==> !grown
  {
    var size := INITIAL_SIZE;
    if 0 < contentLength <= maxBody {
      size := contentLength + 1;
    }
    buf := new byte[size](_ => '\0');
    len, grown := 0, false;
    ghost var all := r.rest;
    var left := maxBody + 1;
    while true
      invariant fresh(buf) && len <= buf.Length
      invariant buf[..len] + r.rest == all
      invariant left == maxBody + 1 - len && (len > 0 ==> left >= 0)
      invariant len + |r.rest| == |all|
      invariant 0 < contentLength == |all| && contentLength <= maxBody ==> !grown && buf.Length == contentLength + 1
      decreases if left > 0 then left else 0, 1
    {
      if len == buf.Length {
        buf := Grow(buf);
        grown := true;
      }
      if left <= 0 {
        failed := false;
        return;
      }
      var room := buf.Length - len;
      var limit := if room > left then left else room;
      var n, status := Append(r, buf, len, limit);
      len := len + n;
      left := left - n;
      if status == EOF {
        failed := false;
        return;
      }
      if status == Error {
        failed := true;
        return;
      }
    }
  }

  /** Reads behind the first len bytes of the buffer. */
  method Append(r: Stream, buf: array<byte>, len: nat, limit: nat) returns (n: nat, status: Status)
    requires len + limit <= buf.Length
    modifies r, buf
    ensures n <= limit && n <= |old(r.rest)| && |r.rest| == |old(r.rest)| - n
    ensures buf[..len + n] + r.rest == old(buf[..len]) + old(r.rest)
    ensures status != More ==> r.rest == [] && status == if r.broken then Error else EOF
    ensures limit > 0 && n == 0 ==> status != More
  {
    ghost var before, rest := buf[..len], r.rest;
    n, status := r.Read(buf, len, limit);
    assert buf[..len + n] == before + rest[..n];
    assert rest[..n] + rest[n..] == rest;
    assert before + rest[..n] + rest[n..] == before + (rest[..n] + rest[n..]);
  }

  /** What append does to a full slice: a larger array with the same bytes. */
  method Grow(buf: array<byte>) returns (larger: array<byte>)
    ensures fresh(larger) && larger.Length > buf.Length
    ensures larger[..buf.Length] == buf[..]
  {
    var size: nat :| size > buf.Length;
    larger := new byte[size](i reads buf => if 0 <= i < buf.Length then buf[i] else '\0');
  }

  /** A response body: none, one held in memory, or one still streaming. */
  datatype Contents = NoBody | Buffered(buf: Bytes, reader: Stream) | Streaming(reader: Stream)

  ghost function Readers(c: Contents): set<object> {
    if c.NoBody? then {} else {c.reader}
  }

  /** The bytes that can still be read. */
  ghost function Unread(c: Contents): Bytes
    reads Readers(c)
  {
    if c.NoBody? then [] else c.reader.rest
  }

  ghost predicate Broken(c: Contents) {
    !c.NoBody? && c.reader.broken
  }

  /** A buffered body's reader stands somewhere in its buffer. */
  ghost predicate Sound(c: Contents)
    reads Readers(c)
  {
    c.Buffered? ==>
      && !c.reader.broken && |c.reader.rest| <= |c.buf|
      && c.reader.rest == c.buf[|c.buf| - |c.reader.rest|..]
  }

  class Response {
    var status: int
    var header: Header
    var body: Contents
    var contentLength: int

    constructor (status: int, header: Header, body: Contents, contentLength: int)
      ensures this.status == status && this.header == header && this.body == body && this.contentLength == contentLength
    {
      this.status, this.header, this.body, this.contentLength := status, header, body, contentLength;
    }

    ghost predicate Valid()
      reads this, Readers(body)
    {
      Sound(body)
    }

    /** Replaces the body, keeping the framing true to it. */
    method SetBody(body: Bytes)
      modifies this
      ensures Valid() && fresh(Readers(this.body))
      ensures this.body.Buffered? && this.body.buf == body && Unread(this.body) == body
      ensures contentLength == |body|
      ensures header == old(header)[CONTENT_LENGTH := [Decimal(|body|)]]
      ensures status == old(status)
    {
      var reader := new Stream(body, false);
      this.body := Buffered(body, reader);
      contentLength := |body|;
      header := header[CONTENT_LENGTH := [Decimal(|body|)]];
    }

    /** Buffers the body if it fits: this succeeds exactly when the unread bytes
        are at most maxBody and no read fails, and either way what can still be
        read is what could be read before. */
    method Drain(maxBody: int) returns (buf: Bytes, ok: bool)
      requires Valid() && maxBody < MAX_INT64
      modifies this`body, Readers(body)
      ensures Valid() && fresh(Readers(body) - old(Readers(body)))
      ensures Unread(body) == old(Unread(body)) && Broken(body) == old(Broken(body))
      ensures body.NoBody? == old(body.NoBody?)
      ensures ok <==> !body.NoBody? && !Broken(body) && |Unread(body)| <= maxBody
      ensures ok ==> buf == Unread(body) && body.Buffered? && body.buf == buf
    {
      if body.NoBody? {
        return [], false;
      }
      if body.Buffered? && |body.reader.rest| == |body.buf| {
        return body.buf, |body.buf| <= maxBody;
      }
      var reader := body.reader;
      var a, len, failed, _ := ReadUpTo(reader, contentLength, maxBody);
      buf := a[..len];
      if failed || len > maxBody {
        var joined := new Stream(buf + reader.rest, reader.broken);
        body := Streaming(joined);
        return [], false;
      }
      var held := new Stream(buf, false);
      body := Buffered(buf, held);
      ok := true;
    }
  }
}
