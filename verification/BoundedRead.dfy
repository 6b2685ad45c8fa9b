/**
  The three ways hook output is captured under one byte cap: first line then the rest (a command's
  stdout), a take-limited read to the end (stderr, background hooks), and a loop over response
  chunks (HTTP hooks). Whatever way the stream is cut into reads, all three keep its first
  CAP + 1 bytes and never more, so the text they produce is one and the same function of the stream.

  Decoding of bytes to text is an input.
*/
module BoundedRead {
  import opened Prelude

  type Byte = b: int | 0 <= b < 256

  const CAP: nat := 65_536
  const NEWLINE: Byte := 10
  const MARKER := "\n[hook output truncated: exceeded the 64 KB cap]"

  /** What one read of the underlying stream gives; a read of no bytes is the end of the stream. */
  datatype Read = Bytes(data: seq<Byte>) | Failed

  datatype ReadError = ReadError

  /** The bytes the stream delivers before its end or its failure. */
  function Sent(coming: seq<Read>): seq<Byte> {
    if coming == [] || coming[0].Failed? || coming[0].data == [] then [] else coming[0].data + Sent(coming[1..])
  }

  /** The stream ends in a failure rather than an end. */
  predicate Broken(coming: seq<Read>) {
    coming != [] && (coming[0].Failed? || (coming[0].data != [] && Broken(coming[1..])))
  }

  function Capped(s: seq<Byte>): seq<Byte> {
    s[..Min(|s|, CAP + 1)]
  }

  /** The text every capture must produce for a stream. */
  function BoundedText(s: seq<Byte>, decode: seq<Byte> -> string): string {
    if |s| <= CAP then decode(s) else decode(s[..CAP]) + MARKER
  }

  /** One byte past the cap is enough to tell a truncated stream from a complete one. */
  lemma OneByteMoreIsEnough(s: seq<Byte>, decode: seq<Byte> -> string)
    ensures BoundedText(Capped(s), decode) == BoundedText(s, decode)
    ensures |Capped(s)| > CAP <==> |s| > CAP
  {
    if |s| > CAP {
      assert Capped(s)[..CAP] == s[..CAP];
    } else {
      assert Capped(s) == s;
    }
  }

  /** `line` is the first line of `s`, newline included, cut at the cap. */
  ghost predicate IsCappedLine(line: seq<Byte>, s: seq<Byte>) {
    && line <= s
    && |line| <= CAP + 1
    && (forall i :: 0 <= i < |line| - 1 ==> line[i] != NEWLINE)
    && (line == s || |line| == CAP + 1 || (line != [] && line[|line| - 1] == NEWLINE))
  }

  /** The last round of the first-line loop completes the line. */
  lemma LineCompleted(out: seq<Byte>, chunk: seq<Byte>, rest: seq<Byte>)
    requires NEWLINE !in out && |out| <= CAP && |out| + |chunk| <= CAP + 1
    requires forall i :: 0 <= i < |chunk| - 1 ==> chunk[i] != NEWLINE
    requires (chunk == [] && rest == []) || |out| + |chunk| == CAP + 1 || (chunk != [] && chunk[|chunk| - 1] == NEWLINE)
    ensures var s := out + chunk + rest;
            && IsCappedLine(out + chunk, s)
            && s[|out + chunk|..] == rest
            && (chunk == [] || |s| > CAP || NEWLINE in s)
  {
    var line := out + chunk;
    forall i | 0 <= i < |line| - 1
      ensures line[i] != NEWLINE
    {
      assert line[i] == if i < |out| then out[i] else chunk[i - |out|];
    }
    if chunk != [] {
      assert (line + rest)[|line| - 1] == chunk[|chunk| - 1];
    }
  }

  lemma Regroup(a: seq<Byte>, b: seq<Byte>, c: seq<Byte>)
    ensures a + (b + c) == a + b + c
  {
  }

  /** What one more round of the first-line loop leaves to be said of the stream `s`. */
  lemma LineContinued(s: seq<Byte>, out: seq<Byte>, chunk: seq<Byte>, rest: seq<Byte>)
    requires s == out + (chunk + rest) && NEWLINE !in out
    ensures s == out + chunk + rest
    ensures NEWLINE !in chunk ==> NEWLINE !in out + chunk
  {
  }

  lemma LineFull(out: seq<Byte>, rest: seq<Byte>)
    requires |out| == CAP + 1 && NEWLINE !in out
    ensures IsCappedLine(out, out + rest) && (out + rest)[|out|..] == rest && |out + rest| > CAP
  {
  }

  lemma CappedLineIsUnique(a: seq<Byte>, b: seq<Byte>, s: seq<Byte>)
    requires IsCappedLine(a, s) && IsCappedLine(b, s)
    ensures a == b
  {
    assert a == s[..|a|] && b == s[..|b|];
  }

  /** The first line of the stream sends the hook to the background. */
  ghost predicate HandsOver(line: seq<Byte>, s: seq<Byte>, goesAsync: seq<Byte> -> bool) {
    IsCappedLine(line, s) && line != [] && |line| <= CAP && goesAsync(line)
  }

  /** A buffered reader: bytes already fetched, and the reads still to come. */
  class Reader {
    var pending: seq<Byte>
    var coming: seq<Read>

    constructor (coming: seq<Read>)
      ensures this.pending == [] && this.coming == coming
      ensures Content() == Sent(coming)
    {
      this.pending, this.coming := [], coming;
    }

    function Content(): seq<Byte>
      reads this
    {
      pending + Sent(coming)
    }

    predicate Breaks()
      reads this
    {
      Broken(coming)
    }

    /** Fetches more only when nothing is pending. */
    method FillBuf() returns (r: Result<seq<Byte>, ReadError>)
      modifies this
      ensures Content() == old(Content()) && Breaks() == old(Breaks())
      ensures |pending| + |coming| <= old(|pending| + |coming|) || (old(pending) == [] && |coming| < old(|coming|))
      ensures |coming| <= old(|coming|) && (|coming| == old(|coming|) ==> pending == old(pending))
      ensures r.Ok? ==> r.value == pending && (r.value == [] <==> Content() == [])
      ensures r.Ok? && r.value == [] ==> !Breaks()
      ensures r.Err? ==> Content() == [] && Breaks()
    {
      if pending == [] && coming != [] {
        match coming[0] {
          case Failed => return Err(ReadError);
          case Bytes(data) =>
            if data != [] {
              pending, coming := data, coming[1..];
              assert pending + Sent(coming) == old(Sent(coming));
            }
        }
      }
      return Ok(pending);
    }

    method Consume(n: nat)
      requires n <= |pending|
      modifies this`pending
      ensures pending == old(pending)[n..]
      ensures Content() == old(Content())[n..]
    {
      pending := pending[n..];
    }

    /** One read of at most `limit` bytes; no bytes means the end. */
    method ReadSome(limit: nat) returns (r: Result<seq<Byte>, ReadError>)
      requires limit > 0
      modifies this
      ensures Breaks() == old(Breaks())
      ensures r.Ok? ==> old(Content()) == r.value + Content() && |r.value| <= limit
      ensures r.Ok? && r.value == [] ==> Content() == [] && !Breaks()
      ensures r.Ok? && r.value != [] ==>
                |coming| < old(|coming|) || (|coming| == old(|coming|) && |pending| < old(|pending|))
      ensures r.Err? ==> Content() == old(Content()) == [] && Breaks()
    {
      var read := FillBuf();
      if read.Err? {
        return read;
      }
      var n := Min(|read.value|, limit);
      assert read.value == read.value[..n] + read.value[n..];
      Regroup(read.value[..n], read.value[n..], Sent(coming));
      Consume(n);
      return Ok(read.value[..n]);
    }

    /** Reads to the end of the stream or to `limit` bytes, appending to `raw`. */
    method ReadToEnd(raw: seq<Byte>, limit: nat) returns (all: seq<Byte>, failed: bool, ghost peak: nat)
      modifies this
      ensures var s := old(Content());
              all == raw + s[..Min(|s|, limit)] && Content() == s[Min(|s|, limit)..]
      ensures failed <==> old(Breaks()) && |old(Content())| < limit
      ensures Breaks() == old(Breaks())
      ensures peak <= |raw| + limit
    {
      ghost var s := Content();
      ghost var taken: seq<Byte> := [];
      all, failed, peak := raw, false, |raw|;
      var left := limit;
      while left > 0
        invariant Breaks() == old(Breaks())
        invariant s == taken + Content() && all == raw + taken
        invariant 0 <= left && |taken| + left == limit
        invariant peak <= |raw| + limit
        decreases |coming|, |pending|
      {
        var read := ReadSome(left);
        if read.Err? {
          failed := true;
          return;
        }
        if read.value == [] {
          return;
        }
        Regroup(taken, read.value, Content());
        Regroup(raw, taken, read.value);
        all := all + read.value;
        taken := taken + read.value;
        left := left - |read.value|;
        peak := Max(peak, |all|);
      }
    }

    /** Discards the rest so that the writer never blocks on a full pipe. */
    method Drain()
      modifies this
      ensures Content() == []
    {
      while true
        invariant true
        decreases |coming|, |pending|
      {
        var read := FillBuf();
        if read.Err? || read.value == [] {
          return;
        }
        Consume(|read.value|);
      }
    }

    /** One round of the first-line loop: bytes up to a newline or to `limit`, and whether to stop. */
    method LineRound(limit: nat) returns (r: Result<(seq<Byte>, bool), ReadError>)
      requires limit > 0
      modifies this
      ensures Breaks() == old(Breaks())
      ensures r.Err? ==> Content() == old(Content()) == [] && Breaks()
      ensures r.Ok? ==> old(Content()) == r.value.0 + Content() && |r.value.0| <= limit
      ensures r.Ok? ==> forall i :: 0 <= i < |r.value.0| - 1 ==> r.value.0[i] != NEWLINE
      ensures r.Ok? && r.value.0 == [] ==> r.value.1 && Content() == [] && !Breaks()
      ensures r.Ok? && r.value.0 != [] && r.value.1 ==>
                |r.value.0| == limit || r.value.0[|r.value.0| - 1] == NEWLINE
      ensures r.Ok? && !r.value.1 ==> NEWLINE !in r.value.0
      ensures r.Ok? && !r.value.1 ==>
                |coming| < old(|coming|) || (|coming| == old(|coming|) && |pending| < old(|pending|))
    {
      var read := FillBuf();
      if read.Err? {
        return Err(read.error);
      }
      var available := read.value;
      if available == [] {
        return Ok(([], true));
      }
      var through := ThroughNewline(available);
      var consumed := Min(through, limit);
      var found := NEWLINE in available[..consumed];
      assert available == available[..consumed] + available[consumed..];
      Regroup(available[..consumed], available[consumed..], Sent(coming));
      Consume(consumed);
      return Ok((available[..consumed], found || consumed < through));
    }

    method ReadFirstLineCapped() returns (r: Result<seq<Byte>, ReadError>, ghost peak: nat)
      modifies this
      ensures r.Ok? ==> IsCappedLine(r.value, old(Content())) && Content() == old(Content())[|r.value|..]
      ensures r.Err? <==> old(Breaks()) && |old(Content())| <= CAP && NEWLINE !in old(Content())
      ensures Breaks() == old(Breaks())
      ensures peak <= CAP + 1
    {
      ghost var s := Content();
      var out: seq<Byte> := [];
      peak := 0;
      while |out| <= CAP
        invariant Breaks() == old(Breaks())
        invariant |out| <= CAP + 1 && NEWLINE !in out
        invariant s == out + Content()
        invariant peak <= CAP + 1
        decreases |coming|, |pending|
      {
        var read := LineRound(CAP + 1 - |out|);
        if read.Err? {
          assert s == out;
          return Err(read.error), peak;
        }
        LineContinued(s, out, read.value.0, Content());
        if read.value.1 {
          LineCompleted(out, read.value.0, Content());
          out := out + read.value.0;
          return Ok(out), Max(peak, |out|);
        }
        out := out + read.value.0;
        peak := Max(peak, |out|);
      }
      LineFull(out, Content());
      return Ok(out), peak;
    }

    /** The text of a stream whose beginning has been read already. */
    method FinishCapture(begun: seq<Byte>, decode: seq<Byte> -> string)
      returns (r: Result<string, ReadError>, ghost peak: nat)
      requires |begun| <= CAP + 1
      modifies this
      ensures r.Err? <==> old(Breaks()) && |begun + old(Content())| <= CAP
      ensures r.Ok? ==> r.value == BoundedText(begun + old(Content()), decode) && Content() == []
      ensures peak <= CAP + 1
    {
      ghost var s := begun + Content();
      var raw := begun;
      peak := |raw|;
      if |raw| <= CAP {
        var failed;
        raw, failed, peak := ReadToEnd(raw, CAP + 1 - |raw|);
        if failed {
          return Err(ReadError), peak;
        }
      }
      Drain();
      assert raw == Capped(s);
      OneByteMoreIsEnough(s, decode);
      var text := BoundHookOutput(raw, decode);
      return Ok(text), peak;
    }

    /** A command's stdout: `None` when the first line hands the hook over to the background, with
        everything after that line still to be read. */
    method CaptureStdout(goesAsync: seq<Byte> -> bool, decode: seq<Byte> -> string)
      returns (r: Result<Option<string>, ReadError>, ghost peak: nat)
      modifies this
      ensures r.Err? <==>
                && old(Breaks()) && |old(Content())| <= CAP
                && (NEWLINE in old(Content()) ==> !exists line :: HandsOver(line, old(Content()), goesAsync))
      ensures r.Ok? && r.value.Some? ==> r.value.value == BoundedText(old(Content()), decode) && Content() == []
      ensures r.Ok? && r.value.Some? ==> !exists line :: HandsOver(line, old(Content()), goesAsync)
      ensures r.Ok? && r.value.None? ==>
                exists line :: HandsOver(line, old(Content()), goesAsync) && Content() == old(Content())[|line|..]
      ensures peak <= CAP + 1
    {
      ghost var s := Content();
      var first;
      first, peak := ReadFirstLineCapped();
      if first.Err? {
        return Err(first.error), peak;
      }
      var raw := first.value;
      forall line | IsCappedLine(line, s)
        ensures line == raw
      {
        CappedLineIsUnique(line, raw, s);
      }
      if raw != [] && |raw| <= CAP && goesAsync(raw) {
        assert HandsOver(raw, s, goesAsync);
        return Ok(None), peak;
      }
      assert s == raw + Content();
      var text;
      text, peak := FinishCapture(raw, decode);
      if text.Err? {
        return Err(text.error), peak;
      }
      return Ok(Some(text.value)), peak;
    }
  }

  /** One past the first newline, or everything. */
  method ThroughNewline(available: seq<Byte>) returns (n: nat)
    ensures n <= |available|
    ensures NEWLINE !in available ==> n == |available|
    ensures NEWLINE in available ==> n > 0 && available[n - 1] == NEWLINE && NEWLINE !in available[..n - 1]
  {
    n := 0;
    while n < |available|
      invariant 0 <= n <= |available|
      invariant NEWLINE !in available[..n]
    {
      n := n + 1;
      if available[n - 1] == NEWLINE {
        return;
      }
    }
    assert available[..n] == available;
  }

  method BoundHookOutput(raw: seq<Byte>, decode: seq<Byte> -> string) returns (text: string)
    ensures text == BoundedText(raw, decode)
  {
    var bytes := raw;
    var truncated := |bytes| > CAP;
    if truncated {
      bytes := bytes[..CAP];
    }
    text := decode(bytes);
    if truncated {
      text := text + MARKER;
    }
  }

  /** A missing pipe reads as empty text, and a failure part way as the end of the stream. */
  method ReadBoundedOpt(reader: Reader?, decode: seq<Byte> -> string) returns (text: string, ghost peak: nat)
    modifies reader
    ensures reader == null ==> text == ""
    ensures reader != null ==> text == BoundedText(old(reader.Content()), decode) && reader.Content() == []
    ensures peak <= CAP + 1
  {
    peak := 0;
    if reader == null {
      return "", peak;
    }
    var raw, failed;
    raw, failed, peak := reader.ReadToEnd([], CAP + 1);
    reader.Drain();
    text := BoundHookOutput(raw, decode);
    OneByteMoreIsEnough(old(reader.Content()), decode);
    assert raw == Capped(old(reader.Content()));
  }

  /** The bytes of an HTTP body before any failure; a chunk may be empty without ending it. */
  function Body(chunks: seq<Read>): seq<Byte> {
    if chunks == [] || chunks[0].Failed? then [] else chunks[0].data + Body(chunks[1..])
  }

  predicate BodyBroken(chunks: seq<Read>) {
    Failed in chunks
  }

  method ReadChunks(chunks: seq<Read>) returns (r: Result<seq<Byte>, ReadError>, ghost peak: nat)
    ensures r.Err? <==> BodyBroken(chunks) && |Body(chunks)| <= CAP
    ensures r.Ok? ==> r.value == Capped(Body(chunks))
    ensures peak <= CAP + 1
  {
    ghost var s := Body(chunks);
    var raw: seq<Byte>, i := [], 0;
    peak := 0;
    while |raw| <= CAP
      invariant 0 <= i <= |chunks| && Failed !in chunks[..i]
      invariant |raw| <= CAP + 1 && s == raw + Body(chunks[i..])
      invariant peak <= CAP + 1
      decreases |chunks| - i
    {
      if i == |chunks| {
        assert chunks[..i] == chunks;
        return Ok(raw), peak;
      }
      assert chunks[i..][0] == chunks[i] && chunks[i..][1..] == chunks[i + 1..];
      if chunks[i].Failed? {
        assert s == raw;
        return Err(ReadError), peak;
      }
      var chunk := chunks[i].data;
      var n := Min(|chunk|, CAP + 1 - |raw|);
      Regroup(chunk[..n], chunk[n..], Body(chunks[i + 1..]));
      Regroup(raw, chunk[..n], chunk[n..] + Body(chunks[i + 1..]));
      assert chunk == chunk[..n] + chunk[n..];
      raw := raw + chunk[..n];
      peak := Max(peak, |raw|);
      if n < |chunk| {
        return Ok(raw), peak;
      }
      assert chunk[n..] + Body(chunks[i + 1..]) == Body(chunks[i + 1..]);
      i := i + 1;
    }
    return Ok(raw), peak;
  }

  method ReadBoundedHttpBody(chunks: seq<Read>, decode: seq<Byte> -> string)
    returns (r: Result<string, ReadError>, ghost peak: nat)
    ensures r.Err? <==> BodyBroken(chunks) && |Body(chunks)| <= CAP
    ensures r.Ok? ==> r.value == BoundedText(Body(chunks), decode)
    ensures peak <= CAP + 1
  {
    var raw;
    raw, peak := ReadChunks(chunks);
    if raw.Err? {
      return Err(raw.error), peak;
    }
    OneByteMoreIsEnough(Body(chunks), decode);
    var text := BoundHookOutput(raw.value, decode);
    return Ok(text), peak;
  }
}
