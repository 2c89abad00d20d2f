/** The hint stream: frames as the guest writes them (op-preimage/hints.go) and as the VM takes
    them apart again, one write syscall at a time (cannon/mipsevm/mips_syscalls.go). */
module Hints {
  import opened Words
  import opened Arithmetic

  const TWO32 := 0x1_0000_0000

  /** A length prefix on four bytes, then the hint. */
  function Frame(hint: seq<byte>): seq<byte> {
    PutBE(|hint| % TWO32, 4) + hint
  }

  function Frames(hints: seq<seq<byte>>): seq<byte> {
    if hints == [] then [] else Frame(hints[0]) + Frames(hints[1..])
  }

  lemma ShortFrame(h: seq<byte>)
    requires |h| < TWO32
    ensures Frame(h) == PutBE(|h|, 4) + h
  {
    RemainderUnique(|h|, TWO32, 0, |h|);
  }

  /** HintWriter builds the frame in a buffer before writing it. */
  method WriteHint(hint: seq<byte>) returns (hintBytes: seq<byte>)
    ensures hintBytes == Frame(hint)
  {
    hintBytes := [];
    hintBytes := hintBytes + PutBE(|hint| % TWO32, 4);
    hintBytes := hintBytes + hint;
  }

  /** The length in the prefix. */
  function HintLen(buf: seq<byte>): nat
    requires |buf| >= 4
  {
    GetBE(buf[..4])
  }

  /** The buffer starts with a whole frame, as the VM tests it: the length of the rest is truncated to 32 bits. */
  predicate Ready(buf: seq<byte>) {
    |buf| >= 4 && HintLen(buf) <= (|buf| - 4) % TWO32
  }

  /** The buffer starts with a whole frame. */
  predicate StartsWithFrame(buf: seq<byte>) {
    |buf| >= 4 && HintLen(buf) <= |buf| - 4
  }

  lemma PrefixBound(buf: seq<byte>)
    requires |buf| >= 4
    ensures HintLen(buf) < TWO32
  {
    PutGet(buf[..4]);
    Pow256Of4();
  }

  /** One turn of the loop: it stops, it takes the first `end` bytes off, or a slice is out of range. */
  datatype Turn = Stop | Take(end: nat) | OutOfRange

  /** The end of the frame is computed on 32 bits, so for the longest hints it wraps around below the
      start of the slice. */
  function TurnOf(buf: seq<byte>): (t: Turn)
    ensures t.Take? ==> 4 <= t.end <= |buf|
  {
    if !Ready(buf) then Stop
    else
      var end := Wrap32(4 + HintLen(buf));
      if 4 <= end then Take(end) else OutOfRange
  }

  /** The turn intended, without any truncation. */
  function IntendedTurn(buf: seq<byte>): (t: Turn)
    ensures t.Take? ==> 4 <= t.end <= |buf|
  {
    if StartsWithFrame(buf) then Take(4 + HintLen(buf)) else Stop
  }

  /** The hints longer than this have a frame whose end does not fit in 32 bits. */
  const MAX_HINT := TWO32 - 5

  /** A turn is the intended one exactly if the truncated length of the rest still holds the hint, which is so for
      every buffer short enough, and a whole first frame is not one of the longest. */
  lemma TurnIsIntended(buf: seq<byte>)
    ensures TurnOf(buf) == IntendedTurn(buf)
       <==> && (|buf| < TWO32 + 4 || HintLen(buf) <= (|buf| - 4) % TWO32)
            && (StartsWithFrame(buf) ==> HintLen(buf) <= MAX_HINT)
  {
    hide HintLen;
    if |buf| >= 4 {
      PrefixBound(buf);
    }
  }

  datatype Decoded = Decoded(hints: seq<seq<byte>>, rest: seq<byte>)

  /** Whole frames are taken off the front until none is left; None where a slice is out of range. */
  function Decode(buf: seq<byte>): Option<Decoded>
    decreases |buf|
  {
    match TurnOf(buf)
    case Stop => Some(Decoded([], buf))
    case OutOfRange => None
    case Take(end) =>
      match Decode(buf[end..])
      case None => None
      case Some(d) => Some(Decoded([buf[4..end]] + d.hints, d.rest))
  }

  /** The frames already taken off, then what decoding the rest of the buffer gives. */
  function After(hints: seq<seq<byte>>, d: Option<Decoded>): Option<Decoded> {
    match d
    case None => None
    case Some(d) => Some(Decoded(hints + d.hints, d.rest))
  }

  lemma AfterOne(hints: seq<seq<byte>>, buf: seq<byte>)
    requires TurnOf(buf).Take?
    ensures var end := TurnOf(buf).end;
            After(hints, Decode(buf)) == After(hints + [buf[4..end]], Decode(buf[end..]))
  {
    hide TurnOf;
    var end := TurnOf(buf).end;
    if Decode(buf[end..]).Some? {
      Assoc(hints, [buf[4..end]], Decode(buf[end..]).value.hints);
    }
  }

  /** The loop of the write syscall; not `ok` where it panics. */
  method ProcessHints(buf: seq<byte>) returns (ok: bool, hints: seq<seq<byte>>, lastHint: seq<byte>)
    ensures Decode(buf) == if ok then Some(Decoded(hints, lastHint)) else None
  {
    ok, hints, lastHint := true, [], buf;
    assert Decode(buf).Some? ==> [] + Decode(buf).value.hints == Decode(buf).value.hints;
    while |lastHint| >= 4
      invariant ok && Decode(buf) == After(hints, Decode(lastHint))
      decreases |lastHint|
    {
      var hintLen := HintLen(lastHint);
      if hintLen <= (|lastHint| - 4) % TWO32 {
        var end := Wrap32(4 + hintLen);
        if end < 4 {
          return false, hints, lastHint;
        }
        var hint := lastHint[4..end];
        AfterOne(hints, lastHint);
        lastHint := lastHint[end..];
        hints := hints + [hint];
      } else {
        break;
      }
    }
    assert hints + [] == hints;
  }

  lemma Assoc<T>(x: seq<T>, y: seq<T>, z: seq<T>)
    ensures (x + y) + z == x + (y + z)
  {
  }

  lemma Straddle(a: seq<byte>, b: seq<byte>, n: nat)
    requires 4 <= n <= |a|
    ensures (a + b)[..4] == a[..4] && (a + b)[4..n] == a[4..n] && (a + b)[n..] == a[n..] + b
  {
  }

  /** The reference: whole frames taken off the front, without any truncation. */
  function Parse(buf: seq<byte>): Decoded
    decreases |buf|
  {
    match IntendedTurn(buf)
    case Take(end) =>
      var d := Parse(buf[end..]);
      Decoded([buf[4..end]] + d.hints, d.rest)
    case _ => Decoded([], buf)
  }

  /** No hint is one of the longest. */
  predicate ShortHints(hints: seq<seq<byte>>) {
    forall h :: h in hints ==> |h| <= MAX_HINT
  }

  /** What the VM makes of a parsed stream: it panics exactly if one of the hints is too long. */
  function Delivered(d: Decoded): Option<Decoded> {
    if ShortHints(d.hints) then Some(d) else None
  }

  lemma ShortConcat(a: seq<seq<byte>>, b: seq<seq<byte>>)
    ensures ShortHints(a + b) <==> ShortHints(a) && ShortHints(b)
  {
    assert forall h :: h in a ==> h in a + b;
    assert forall h :: h in b ==> h in a + b;
  }

  /** On every buffer short enough, the loop of the VM delivers what the reference does, and panics exactly if the
      buffer holds a whole frame of one of the longest hints. */
  lemma {:induction false} DecodeIsParse(buf: seq<byte>)
    requires |buf| < TWO32 + 4
    ensures Decode(buf) == Delivered(Parse(buf))
    decreases |buf|
  {
    hide HintLen;
    TurnIsIntended(buf);
    if StartsWithFrame(buf) {
      PrefixBound(buf);
      var end := 4 + HintLen(buf);
      var h := buf[4..end];
      DecodeIsParse(buf[end..]);
      ShortConcat([h], Parse(buf[end..]).hints);
      assert ShortHints([h]) <==> |h| <= MAX_HINT;
    }
  }

  /** The shortest of the hints that are too long, all zeros: its frame is whole and the buffer is below the bound
      of the truncated test, but the VM panics. */
  lemma LongestHintsPanic(buf: seq<byte>)
    requires buf == PutBE(TWO32 - 4, 4) + seq(TWO32 - 4, (i: nat) => 0 as byte)
    ensures |buf| < TWO32 + 4 && StartsWithFrame(buf) && Decode(buf) == None
  {
    Pow256Of4();
    GetPut(TWO32 - 4, 4);
    assert buf[..4] == PutBE(TWO32 - 4, 4);
    hide PutBE, GetBE;
  }

  lemma NothingToParse(buf: seq<byte>)
    requires !StartsWithFrame(buf)
    ensures Parse(buf) == Decoded([], buf)
  {
  }

  lemma FrameOfPrefix(buf: seq<byte>, n: nat)
    requires StartsWithFrame(buf) && n == 4 + HintLen(buf)
    ensures n <= |buf| && Frame(buf[4..n]) == buf[..4] + buf[4..n]
  {
    hide GetBE, PutBE;
    PrefixBound(buf);
    ShortFrame(buf[4..n]);
    PutGet(buf[..4]);
  }

  /** Nothing is lost or invented: the delivered frames and the remainder are the buffer. */
  lemma {:induction false} ParseKeepsBytes(buf: seq<byte>)
    ensures Frames(Parse(buf).hints) + Parse(buf).rest == buf
    ensures !StartsWithFrame(Parse(buf).rest)
    decreases |buf|
  {
    hide GetBE, PutBE;
    if StartsWithFrame(buf) {
      var n := 4 + HintLen(buf);
      ParseKeepsBytes(buf[n..]);
      var p, h, d := buf[..4], buf[4..n], Parse(buf[n..]);
      FrameOfPrefix(buf, n);
      assert ([h] + d.hints)[1..] == d.hints;
      assert buf == p + h + buf[n..];
      Assoc(p + h, Frames(d.hints), d.rest);
    }
  }

  /** Parsing what was buffered and then the rest is parsing everything at once. */
  lemma {:induction false} ParseSplit(a: seq<byte>, b: seq<byte>)
    ensures Parse(a + b)
         == Decoded(Parse(a).hints + Parse(Parse(a).rest + b).hints, Parse(Parse(a).rest + b).rest)
    decreases |a|
  {
    hide GetBE, PutBE;
    if StartsWithFrame(a) {
      var n := 4 + HintLen(a);
      Straddle(a, b, n);
      ParseSplit(a[n..], b);
      var x, d := a[4..n], Parse(a[n..]);
      var e := Parse(d.rest + b);
      assert Parse(a) == Decoded([x] + d.hints, d.rest);
      assert Parse(a + b) == Decoded([x] + (d.hints + e.hints), e.rest);
      Assoc([x], d.hints, e.hints);
    } else {
      assert Parse(a).hints == [] && Parse(a).rest == a;
    }
  }

  lemma Parts(p: seq<byte>, h: seq<byte>, t: seq<byte>)
    requires |p| == 4
    ensures var buf := p + h + t; buf[..4] == p && buf[4..4 + |h|] == h && buf[4 + |h|..] == t
  {
  }

  lemma ParseParts(p: seq<byte>, h: seq<byte>, t: seq<byte>)
    requires |p| == 4 && GetBE(p) == |h|
    ensures Parse(p + h + t) == Decoded([h] + Parse(t).hints, Parse(t).rest)
  {
    hide GetBE;
    Parts(p, h, t);
  }

  /** Framed hints parse into themselves. */
  lemma {:induction false} ParseFrames(hints: seq<seq<byte>>)
    requires forall h :: h in hints ==> |h| < TWO32
    ensures Parse(Frames(hints)) == Decoded(hints, [])
  {
    hide GetBE, PutBE;
    if hints == [] {
    } else {
      var h := hints[0];
      assert h in hints;
      Pow256Of4();
      GetPut(|h|, 4);
      ShortFrame(h);
      ParseParts(PutBE(|h|, 4), h, Frames(hints[1..]));
      ParseFrames(hints[1..]);
      assert [h] + hints[1..] == hints;
    }
  }

  // ----- whole runs -----

  function Concat(chunks: seq<seq<byte>>): seq<byte> {
    if chunks == [] then [] else Concat(chunks[..|chunks| - 1]) + chunks[|chunks| - 1]
  }

  /** The state of the VM after the given write syscalls: hints delivered so far, and LastHint. None if one panics. */
  function Feed(chunks: seq<seq<byte>>): Option<Decoded> {
    if chunks == [] then Some(Decoded([], []))
    else
      match Feed(chunks[..|chunks| - 1])
      case None => None
      case Some(before) => After(before.hints, Decode(before.rest + chunks[|chunks| - 1]))
  }

  /** No write makes the buffer outgrow the truncated length test. */
  predicate Fits(chunks: seq<seq<byte>>) {
    chunks == [] ||
    var before := chunks[..|chunks| - 1];
    Fits(before) && (Feed(before).Some? ==> |Feed(before).value.rest| + |chunks[|chunks| - 1]| < TWO32 + 4)
  }

  /** However the stream is cut into writes, the VM is where the reference is on the whole stream, and it has
      panicked exactly if the stream holds a hint that is too long. */
  lemma {:induction false} ChunkInvariance(chunks: seq<seq<byte>>)
    requires Fits(chunks)
    ensures Feed(chunks) == Delivered(Parse(Concat(chunks)))
  {
    hide Decode, ShortHints, StartsWithFrame;
    if chunks == [] {
      assert Parse([]) == Decoded([], []);
      assert ShortHints([]) by { NoHints(); }
    } else {
      var before, last := chunks[..|chunks| - 1], chunks[|chunks| - 1];
      ChunkInvariance(before);
      var d := Parse(Concat(before));
      ParseSplit(Concat(before), last);
      ShortConcat(d.hints, Parse(d.rest + last).hints);
      if ShortHints(d.hints) {
        DecodeIsParse(d.rest + last);
      }
    }
  }

  lemma NoHints()
    ensures ShortHints([]) && Parse([]) == Decoded([], [])
  {
  }

  /** Any hints, framed and cut into writes at any points, arrive whole and in order exactly if none is too long, and
      at every moment before a panic the delivered frames followed by LastHint are the bytes written, LastHint holding
      no whole frame. */
  lemma HintsArrive(hints: seq<seq<byte>>, chunks: seq<seq<byte>>, i: nat)
    requires forall h :: h in hints ==> |h| < TWO32
    requires Concat(chunks) == Frames(hints) && Fits(chunks)
    requires i <= |chunks|
    ensures Feed(chunks) == if ShortHints(hints) then Some(Decoded(hints, [])) else None
    ensures match Feed(chunks[..i])
            case None => !ShortHints(hints)
            case Some(d) => Frames(d.hints) + d.rest == Concat(chunks[..i]) && !StartsWithFrame(d.rest)
  {
    hide Decode, Parse, Frames, ShortHints, StartsWithFrame, Feed, Fits;
    ChunkInvariance(chunks);
    ParseFrames(hints);
    FitsPrefix(chunks, i);
    ChunkInvariance(chunks[..i]);
    ParseKeepsBytes(Concat(chunks[..i]));
    if Feed(chunks[..i]).None? {
      FeedPrefix(chunks, i);
    }
  }

  lemma {:induction false} FeedPrefix(chunks: seq<seq<byte>>, i: nat)
    requires i <= |chunks| && Feed(chunks[..i]).None?
    ensures Feed(chunks).None?
  {
    var n := |chunks|;
    if i == n {
      assert chunks[..n] == chunks;
    } else {
      assert chunks[..n - 1][..i] == chunks[..i];
      FeedPrefix(chunks[..n - 1], i);
    }
  }

  lemma {:induction false} FitsPrefix(chunks: seq<seq<byte>>, i: nat)
    requires Fits(chunks) && i <= |chunks|
    ensures Fits(chunks[..i])
  {
    var n := |chunks|;
    if i == n {
      assert chunks[..n] == chunks;
    } else {
      FitsPrefix(chunks[..n - 1], i);
      assert chunks[..n - 1][..i] == chunks[..i];
    }
  }
}
