/** The control socket's frame reader: newline-delimited frames out of a byte stream that arrives in
    chunks, with a cap on how much may come without a newline. */
module Frames {
  import opened Basics
  import opened Model

  const MAX_FRAME_BYTES := 8 * 1024 * 1024
  const NEWLINE: Byte := 10
  const RETURN: Byte := 13

  function Concat(chunks: seq<seq<Byte>>): seq<Byte> {
    if chunks == [] then [] else chunks[0] + Concat(chunks[1..])
  }

  lemma ConcatEmpty(chunks: seq<seq<Byte>>)
    requires forall c <- chunks :: c != []
    ensures Concat(chunks) == [] <==> chunks == []
  {
    if chunks != [] {
      assert chunks[0] in chunks;
    }
  }

  lemma ConcatDrop(chunks: seq<seq<Byte>>, n: nat)
    requires chunks != [] && n <= |chunks[0]|
    ensures Concat(chunks[0 := chunks[0][n..]]) == Concat(chunks)[n..]
    ensures n == |chunks[0]| ==> Concat(chunks[1..]) == Concat(chunks)[n..]
    ensures Concat(chunks)[..n] == chunks[0][..n]
  {
    assert chunks[0 := chunks[0][n..]][1..] == chunks[1..];
    assert Concat(chunks) == chunks[0] + Concat(chunks[1..]);
  }

  /** A buffered reader over the chunks still to come, none larger than the buffer. After them comes the
      end of file, an empty buffer, or, on a broken connection, a read error. */
  class Reader {
    const capacity: nat
    const broken: bool
    var pending: seq<seq<Byte>>

    ghost predicate Valid()
      reads this
    {
      forall c <- pending :: 0 < |c| <= capacity
    }

    ghost function Stream(): seq<Byte>
      reads this
    {
      Concat(pending)
    }

    constructor (chunks: seq<seq<Byte>>, capacity: nat, broken: bool)
      requires forall c <- chunks :: 0 < |c| <= capacity
      ensures Valid() && pending == chunks && this.capacity == capacity && this.broken == broken
    {
      this.capacity, this.broken := capacity, broken;
      pending := chunks;
    }

    method FillBuf() returns (r: Result<seq<Byte>, FrameError>)
      requires Valid()
      ensures r.Err? <==> Stream() == [] && broken
      ensures r.Err? ==> r.error == ReadFailed
      ensures r.Ok? ==> r.value == if pending == [] then [] else pending[0]
      ensures r.Ok? ==> (r.value == [] <==> Stream() == [])
      ensures r.Ok? ==> |r.value| <= capacity && r.value <= Stream()
    {
      ConcatEmpty(pending);
      if pending != [] {
        return Ok(pending[0]);
      }
      return if broken then Err(ReadFailed) else Ok([]);
    }

    method Consume(n: nat)
      requires Valid() && pending != [] && 0 < n <= |pending[0]|
      modifies this
      ensures Valid() && n <= |old(Stream())| && Stream() == old(Stream())[n..]
    {
      ConcatDrop(pending, n);
      if n == |pending[0]| {
        pending := pending[1..];
      } else {
        var rest := pending[0][n..];
        ghost var before := pending;
        pending := pending[0 := rest];
        forall c | c in pending ensures 0 < |c| <= capacity {
          assert c == rest || c in before;
        }
      }
    }
  }

  // ---- lines of a stream ----

  /** Where the first newline is, or the length if there is none. */
  function LineEnd(s: seq<Byte>): (k: nat)
    ensures k <= |s| && NEWLINE !in s[..k] && (k < |s| ==> s[k] == NEWLINE)
  {
    if s == [] || s[0] == NEWLINE then 0
    else
      var k := LineEnd(s[1..]);
      assert s[..k + 1] == [s[0]] + s[1..][..k];
      k + 1
  }

  /** The first line with its newline, or everything if there is none. */
  function LineLength(s: seq<Byte>): (n: nat)
    ensures n <= |s| && (s != [] ==> n > 0)
  {
    if LineEnd(s) < |s| then LineEnd(s) + 1 else |s|
  }

  /** Trailing newlines and carriage returns removed. */
  function Strip(line: seq<Byte>): seq<Byte> {
    if line != [] && (line[|line| - 1] == NEWLINE || line[|line| - 1] == RETURN) then Strip(line[..|line| - 1])
    else line
  }

  function FirstFrame(s: seq<Byte>): seq<Byte> {
    Strip(s[..LineLength(s)])
  }

  lemma {:induction false} LineEndConcat(a: seq<Byte>, b: seq<Byte>)
    requires NEWLINE !in a
    ensures LineEnd(a + b) == |a| + LineEnd(b)
  {
    if a == [] {
      assert a + b == b;
    } else {
      assert (a + b)[1..] == a[1..] + b;
      LineEndConcat(a[1..], b);
    }
  }

  lemma {:induction false} LineEndPrefix(a: seq<Byte>, t: seq<Byte>)
    requires a <= t && LineEnd(a) < |a|
    ensures LineEnd(t) == LineEnd(a)
  {
    if a[0] != NEWLINE {
      LineEndPrefix(a[1..], t[1..]);
    }
  }

  /** The line ends in this buffer. */
  lemma LineFound(buf: seq<Byte>, t: seq<Byte>, available: seq<Byte>)
    requires NEWLINE !in buf && available <= t && LineEnd(available) < |available|
    ensures var pos := LineEnd(available);
      && LineLength(buf + t) == |buf| + pos + 1
      && (buf + t)[..|buf| + pos + 1] == buf + available[..pos + 1]
      && (buf + t)[|buf| + pos + 1..] == t[pos + 1..]
  {
    hide LineEnd;
    var pos := LineEnd(available);
    LineEndPrefix(available, t);
    LineEndConcat(buf, t);
    SliceConcat(buf, t, pos + 1);
    assert t[..pos + 1] == available[..pos + 1];
  }

  lemma SliceConcat(a: seq<Byte>, b: seq<Byte>, k: nat)
    requires k <= |b|
    ensures (a + b)[..|a| + k] == a + b[..k] && (a + b)[|a| + k..] == b[k..]
  {
  }

  /** The stream ends in the middle of a line. */
  lemma LineAtEnd(buf: seq<Byte>)
    requires NEWLINE !in buf
    ensures LineLength(buf) == |buf| && buf[..|buf|] == buf && buf[|buf|..] == []
  {
    LineEndConcat(buf, []);
    assert buf + [] == buf;
  }

  /** The line does not end in this buffer. */
  lemma LineGoesOn(buf: seq<Byte>, t: seq<Byte>, available: seq<Byte>)
    requires NEWLINE !in buf && available <= t && LineEnd(available) == |available|
    ensures NEWLINE !in buf + available
    ensures buf + t == (buf + available) + t[|available|..]
    ensures LineEnd(buf + t) >= |buf + available|
  {
    assert available == available[..LineEnd(available)];
    assert buf + t == (buf + available) + t[|available|..];
    LineEndConcat(buf + available, t[|available|..]);
  }

  // ---- one frame ----

  datatype FrameError = TooLong | InvalidUtf8 | ReadFailed

  /** What has been collected of the line that starts the stream `s`, with `t` still to come. */
  ghost predicate Collected(s: seq<Byte>, buf: seq<Byte>, t: seq<Byte>) {
    s == buf + t && NEWLINE !in buf
  }

  lemma EndsHere(s: seq<Byte>, buf: seq<Byte>)
    requires Collected(s, buf, [])
    ensures s == buf && LineLength(s) == |s| && LineEnd(s) == |s| && s[..|s|] == s && s[|s|..] == []
  {
    assert s == buf;
    LineAtEnd(buf);
    LineEndConcat(buf, []);
    assert buf + [] == buf;
  }

  lemma FoundHere(s: seq<Byte>, buf: seq<Byte>, t: seq<Byte>, available: seq<Byte>)
    requires Collected(s, buf, t) && available <= t && LineEnd(available) < |available|
    ensures var pos := LineEnd(available);
      && LineEnd(s) < |s| && LineLength(s) == |buf| + pos + 1
      && s[..|buf| + pos + 1] == buf + available[..pos + 1] && s[|buf| + pos + 1..] == t[pos + 1..]
  {
    hide LineEnd, LineLength;
    LineFound(buf, t, available);
    LineEndPrefix(available, t);
    LineEndConcat(buf, t);
  }

  lemma NotYet(s: seq<Byte>, buf: seq<Byte>, t: seq<Byte>, available: seq<Byte>)
    requires Collected(s, buf, t) && available <= t && LineEnd(available) == |available|
    ensures Collected(s, buf + available, t[|available|..]) && LineEnd(s) >= |buf + available|
  {
    hide LineEnd;
    LineGoesOn(buf, t, available);
  }

  /** Collect chunks up to and including the first newline, or to the end of file. */
  method ReadLine(reader: Reader) returns (r: Result<seq<Byte>, FrameError>)
    requires reader.Valid()
    modifies reader
    ensures reader.Valid()
    ensures r.Ok? ==> r.value == old(reader.Stream())[..LineLength(old(reader.Stream()))]
    ensures r.Ok? ==> reader.Stream() == old(reader.Stream())[LineLength(old(reader.Stream()))..]
    ensures r.Ok? && reader.broken ==> LineEnd(old(reader.Stream())) < |old(reader.Stream())|
    ensures r.Ok? ==> |r.value| <= 8_388_608 + reader.capacity
    ensures r.Err? ==> Refused(old(reader.Stream()), reader.broken, r.error)
  {
    hide LineEnd, LineLength, Concat, Collected;
    ghost var s := reader.Stream();
    var buf: seq<Byte> := [];
    NothingCollected(s);
    while true
      invariant reader.Valid() && Collected(s, buf, reader.Stream()) && |buf| <= MAX_FRAME_BYTES
      decreases |reader.Stream()|
    {
      ghost var t := reader.Stream();
      var filled := reader.FillBuf();
      if filled.Err? {
        EndsHere(s, buf);
        return Err(ReadFailed);
      }
      var available := filled.value;
      if available == [] {
        EndsHere(s, buf);
        return Ok(buf);
      }
      var pos := LineEnd(available);
      if pos < |available| {
        FoundHere(s, buf, t, available);
        buf := buf + available[..pos + 1];
        reader.Consume(pos + 1);
        return Ok(buf);
      }
      NotYet(s, buf, t, available);
      buf := buf + available;
      reader.Consume(|available|);
      if |buf| > MAX_FRAME_BYTES {
        return Err(TooLong);
      }
    }
  }

  lemma NothingCollected(s: seq<Byte>)
    ensures Collected(s, [], s)
  {
    assert s == [] + s;
  }

  /** Why a line is refused: it is over the cap, or the connection breaks before its newline. */
  predicate Refused(s: seq<Byte>, broken: bool, error: FrameError) {
    || (error == TooLong && LineEnd(s) > 8_388_608)
    || (error == ReadFailed && broken && LineEnd(s) == |s|)
  }

  method ReadBoundedLine(reader: Reader, utf8: seq<Byte> -> bool)
    returns (r: Result<Option<seq<Byte>>, FrameError>)
    requires reader.Valid()
    modifies reader
    ensures reader.Valid()
    ensures r == Ok(None) <==> old(reader.Stream()) == [] && !reader.broken
    ensures r.Err? && r.error != InvalidUtf8 ==> Refused(old(reader.Stream()), reader.broken, r.error)
    ensures r.Ok? || r.error == InvalidUtf8 ==> reader.broken ==> LineEnd(old(reader.Stream())) < |old(reader.Stream())|
    ensures r.Ok? || r.error == InvalidUtf8 ==>
      reader.Stream() == old(reader.Stream())[LineLength(old(reader.Stream()))..]
    ensures r.Ok? && r.value.Some? ==> r.value.value == FirstFrame(old(reader.Stream())) && utf8(r.value.value)
    ensures r.Ok? && r.value.Some? ==> |r.value.value| <= 8_388_608 + reader.capacity
    ensures r.Err? && r.error == InvalidUtf8 ==> !utf8(FirstFrame(old(reader.Stream())))
  {
    hide LineEnd, Concat;
    ghost var s := reader.Stream();
    var line := ReadLine(reader);
    if line.Err? {
      return Err(line.error);
    }
    var buf := line.value;
    if buf == [] {
      return Ok(None);
    }
    while buf != [] && (buf[|buf| - 1] == NEWLINE || buf[|buf| - 1] == RETURN)
      invariant Strip(buf) == Strip(line.value) && |buf| <= |line.value|
    {
      buf := buf[..|buf| - 1];
    }
    if utf8(buf) {
      return Ok(Some(buf));
    }
    return Err(InvalidUtf8);
  }

  // ---- the whole connection ----

  /** The raw lines of a stream, newlines included. */
  function Lines(s: seq<Byte>): seq<seq<Byte>>
    decreases |s|
  {
    if s == [] then [] else [s[..LineLength(s)]] + Lines(s[LineLength(s)..])
  }

  /** The frames a connection delivers: its stripped lines, up to the first that is not valid UTF-8; what
      follows the last newline is one only if the stream ends cleanly. */
  function FramesOf(s: seq<Byte>, utf8: seq<Byte> -> bool, broken: bool): seq<seq<Byte>>
    decreases |s|
  {
    if s == [] || !utf8(FirstFrame(s)) || (broken && LineEnd(s) == |s|) then []
    else [FirstFrame(s)] + FramesOf(s[LineLength(s)..], utf8, broken)
  }

  /** No line's content is over the cap. */
  predicate AllFit(s: seq<Byte>)
    decreases |s|
  {
    s == [] || (LineEnd(s) <= 8_388_608 && AllFit(s[LineLength(s)..]))
  }

  /** Read frames until the stream ends or one is refused. However the stream was cut into chunks, the
      frames are those of the stream itself when every line fits; when one does not, the reader stops
      there at the latest, and no frame it delivers exceeds the cap by more than one chunk. */
  method ReadFrames(reader: Reader, utf8: seq<Byte> -> bool) returns (frames: seq<seq<Byte>>)
    requires reader.Valid()
    modifies reader
    ensures AllFit(old(reader.Stream())) ==> frames == FramesOf(old(reader.Stream()), utf8, reader.broken)
    ensures frames <= FramesOf(old(reader.Stream()), utf8, reader.broken)
    ensures forall f <- frames :: |f| <= 8_388_608 + reader.capacity
  {
    hide FirstFrame, LineEnd, Concat;
    frames := [];
    ghost var all, fit := FramesOf(reader.Stream(), utf8, reader.broken), AllFit(reader.Stream());
    while true
      invariant reader.Valid() && frames + FramesOf(reader.Stream(), utf8, reader.broken) == all
      invariant fit ==> AllFit(reader.Stream())
      invariant forall f <- frames :: |f| <= MAX_FRAME_BYTES + reader.capacity
      decreases |reader.Stream()|
    {
      ghost var s := reader.Stream();
      var r := ReadBoundedLine(reader, utf8);
      if r.Err? || r.value.None? {
        assert r.Ok? ==> r == Ok(None);
        Stopped(s, utf8, reader.broken, r);
        assert frames <= frames + FramesOf(s, utf8, reader.broken) && frames + [] == frames;
        return;
      }
      Reassociate(frames, r.value.value, FramesOf(reader.Stream(), utf8, reader.broken));
      frames := frames + [r.value.value];
    }
  }

  /** Where the reader stops there is no further frame, unless a line was over the cap. */
  lemma Stopped(s: seq<Byte>, utf8: seq<Byte> -> bool, broken: bool, r: Result<Option<seq<Byte>>, FrameError>)
    requires r == Ok(None) ==> s == []
    requires r.Err? && r.error == InvalidUtf8 ==> !utf8(FirstFrame(s))
    requires r.Err? && r.error != InvalidUtf8 ==> Refused(s, broken, r.error)
    requires r.Err? || r == Ok(None)
    ensures (AllFit(s) ==> FramesOf(s, utf8, broken) == [])
  {
    hide FirstFrame;
  }

  lemma Reassociate(a: seq<seq<Byte>>, f: seq<Byte>, b: seq<seq<Byte>>)
    ensures a + ([f] + b) == (a + [f]) + b
  {
    assert a + ([f] + b) == (a + [f]) + b;
  }

  /** No byte is lost or read twice: the lines put together are the stream. */
  lemma {:induction false} LinesAreStream(s: seq<Byte>)
    ensures Concat(Lines(s)) == s
    decreases |s|
  {
    hide LineLength;
    if s != [] {
      var n := LineLength(s);
      LinesAreStream(s[n..]);
      assert s == s[..n] + s[n..];
    }
  }

  /** A newline ends a line and is nowhere else in it; only the last line may lack one. */
  lemma {:induction false} LinesEndAtNewlines(s: seq<Byte>, k: nat)
    requires k < |Lines(s)|
    ensures var l := Lines(s)[k];
      l != [] && 10 !in l[..|l| - 1] && (l[|l| - 1] == 10 || k == |Lines(s)| - 1)
    decreases |s|
  {
    var n := LineLength(s);
    var l := s[..n];
    if k > 0 {
      LinesEndAtNewlines(s[n..], k - 1);
    } else {
      assert l[..n - 1] == s[..n - 1];
      if LineEnd(s) == |s| {
        assert s[..LineEnd(s)] == s[..n - 1] + [s[n - 1]];
        assert s[n..] == [];
      }
    }
  }

  /** When every line is valid UTF-8 the frames are the stripped lines, one for one. */
  lemma {:induction false} FramesAreLines(s: seq<Byte>, utf8: seq<Byte> -> bool)
    requires forall l <- Lines(s) :: utf8(Strip(l))
    ensures FramesOf(s, utf8, false) == Map(Strip, Lines(s))
    decreases |s|
  {
    hide LineLength, Strip;
    if s != [] {
      var rest := s[LineLength(s)..];
      assert Lines(s) == [s[..LineLength(s)]] + Lines(rest);
      assert Lines(s)[0] == s[..LineLength(s)] && forall l <- Lines(rest) :: l in Lines(s);
      FramesAreLines(rest, utf8);
      assert Map(Strip, Lines(s)) == [Strip(s[..LineLength(s)])] + Map(Strip, Lines(rest));
    }
  }

  /** Stripping takes carriage returns and newlines off the end, all of them, and nothing else. */
  lemma {:induction false} StripIs(line: seq<Byte>)
    ensures Strip(line) <= line
    ensures forall k :: |Strip(line)| <= k < |line| ==> line[k] == 10 || line[k] == 13
    ensures Strip(line) != [] ==> line[|Strip(line)| - 1] != 10 && line[|Strip(line)| - 1] != 13
  {
    if line != [] && (line[|line| - 1] == NEWLINE || line[|line| - 1] == RETURN) {
      StripIs(line[..|line| - 1]);
    }
  }
}
