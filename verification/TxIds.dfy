/** Identifiers of batcher transactions and the map key made of them (op-batcher/batcher/tx_data.go). */
module TxIds {
  import opened Words
  import opened Text

  type ChannelID = b: seq<byte> | |b| == 16 witness [0, 0, 0, 0, 0, 0, 0, 0, 0, 0, 0, 0, 0, 0, 0, 0]

  /** What the loop starts from; a channel may have this identifier too. */
  const NO_CHANNEL: ChannelID := [0, 0, 0, 0, 0, 0, 0, 0, 0, 0, 0, 0, 0, 0, 0, 0]

  type uint16 = x: int | 0 <= x < 0x1_0000

  datatype FrameID = FrameID(chID: ChannelID, frameNumber: uint16)

  /** Frames of the channel named last are only numbered; another channel is named in full. */
  function Piece(cur: ChannelID, f: FrameID): string {
    if f.chID == cur then "+" + Decimal(f.frameNumber)
    else Lead(cur) + Named(f)
  }

  function Lead(cur: ChannelID): string {
    if cur != NO_CHANNEL then "|" else ""
  }

  function Named(f: FrameID): string {
    Hex(f.chID) + (":" + Decimal(f.frameNumber))
  }

  function TxString(cur: ChannelID, id: seq<FrameID>): string
    decreases |id|
  {
    if id == [] then "" else Piece(cur, id[0]) + TxString(id[0].chID, id[1..])
  }

  /** The loop that builds the key. */
  method StringOf(id: seq<FrameID>) returns (s: string)
    ensures s == TxString(NO_CHANNEL, id)
  {
    hide Piece, Named, Decimal, Hex;
    s := "";
    var cur := NO_CHANNEL;
    for i := 0 to |id|
      invariant s + TxString(cur, id[i..]) == TxString(NO_CHANNEL, id)
    {
      var f := id[i];
      UnfoldAt(cur, id, i, s);
      if f.chID == cur {
        s := s + ("+" + Decimal(f.frameNumber));
      } else {
        if cur != NO_CHANNEL {
          s := s + "|";
        }
        cur := f.chID;
        s := s + Named(f);
      }
    }
  }

  /** What keys look like: channel and number of the first frame, then plain numbers for the same channel and another full
      name for another. */
  lemma KeyLooksLike(f: FrameID, g: FrameID)
    requires f.chID != NO_CHANNEL
    ensures TxString(NO_CHANNEL, [f]) == Hex(f.chID) + ":" + Decimal(f.frameNumber)
    ensures TxString(NO_CHANNEL, [f, g]) ==
            TxString(NO_CHANNEL, [f]) +
            if g.chID == f.chID then "+" + Decimal(g.frameNumber) else "|" + Hex(g.chID) + ":" + Decimal(g.frameNumber)
  {
    hide Decimal, Hex;
    assert [f][1..] == [] && [f, g][1..] == [g] && [g][1..] == [];
    var first, second := Named(f), Piece(f.chID, g);
    assert TxString(f.chID, [g]) == second + "" == second;
    assert TxString(NO_CHANNEL, [f]) == "" + first + "" == first;
    assert TxString(NO_CHANNEL, [f, g]) == ("" + first) + second == first + second;
    assert first == Hex(f.chID) + ":" + Decimal(f.frameNumber);
    assert Named(g) == Hex(g.chID) + ":" + Decimal(g.frameNumber);
    assert g.chID != f.chID ==> second == "|" + Hex(g.chID) + ":" + Decimal(g.frameNumber);
  }

  lemma UnfoldAt(cur: ChannelID, id: seq<FrameID>, i: nat, s: string)
    requires i < |id|
    ensures s + TxString(cur, id[i..]) == s + Piece(cur, id[i]) + TxString(id[i].chID, id[i + 1..])
    ensures s + Piece(cur, id[i]) ==
            if id[i].chID == cur then s + ("+" + Decimal(id[i].frameNumber))
            else if cur != NO_CHANNEL then s + "|" + Named(id[i])
            else s + Named(id[i])
  {
    hide Decimal, Hex;
    assert id[i..][0] == id[i] && id[i..][1..] == id[i + 1..];
    var p, rest := Piece(cur, id[i]), TxString(id[i].chID, id[i + 1..]);
    assert s + (p + rest) == (s + p) + rest;
  }

  lemma {:induction false} HexChars(b: seq<byte>, i: nat)
    requires i < |Hex(b)|
    ensures Hex(b)[i] in DIGITS
  {
    if i >= 2 {
      HexChars(b[1..], i - 2);
    }
  }

  /** A channel is named here: 32 hex digits and a colon. */
  predicate StartsNamed(s: string) {
    |s| >= 33 && (forall i :: 0 <= i < 32 ==> s[i] in DIGITS) && s[32] == ':'
  }

  /** What can follow a frame number: nothing, a separator, or at once the next channel. */
  predicate Tail(s: string) {
    s == "" || s[0] == '+' || s[0] == '|' || StartsNamed(s)
  }

  function At(s: string, i: nat): char {
    if i < |s| then s[i] else ' '
  }

  /** A number in front of a tail: where its digits are, and where the tail shows that they are over. */
  lemma NumberThenTail(n: nat, x: string)
    requires Tail(x)
    ensures var s, b := Decimal(n) + x, |Decimal(n)|;
            && (forall i :: 0 <= i < b ==> IsDigit(At(s, i)))
            && (At(s, b) in {' ', '+', '|'} ||
                (At(s, b + 32) == ':' && forall i :: b <= i < b + 32 ==> At(s, i) in DIGITS))
  {
    hide Decimal;
    var s, b := Decimal(n) + x, |Decimal(n)|;
    forall i | 0 <= i < b ensures IsDigit(At(s, i)) {
      DecimalDigits(n, i);
    }
    if StartsNamed(x) {
      forall i | b <= i < b + 32 ensures At(s, i) in DIGITS {
        assert s[i] == x[i - b];
      }
    }
  }

  /** Reading a shorter number of two would put the colon of a channel among the digits of the other reading. */
  lemma NotShorter(m: nat, x: string, n: nat, y: string)
    requires Decimal(m) + x == Decimal(n) + y && Tail(x) && Tail(y)
    ensures |Decimal(m)| >= |Decimal(n)|
  {
    hide Decimal, Tail, At;
    NumberThenTail(m, x);
    NumberThenTail(n, y);
    var s, a, b := Decimal(m) + x, |Decimal(m)|, |Decimal(n)|;
    var atA, atB, colon := At(s, a), At(s, b), At(s, a + 32);
    assert a < b ==> IsDigit(atA) && colon == ':' && b <= a + 32;
    if a < b {
      assert false;
    }
  }

  /** A frame number can be read back. */
  lemma NumberReadsBack(m: nat, x: string, n: nat, y: string)
    requires Decimal(m) + x == Decimal(n) + y && Tail(x) && Tail(y)
    ensures m == n && x == y
  {
    hide Decimal, Tail;
    NotShorter(m, x, n, y);
    NotShorter(n, y, m, x);
    var s, a := Decimal(m) + x, |Decimal(m)|;
    assert s[..a] == Decimal(m) && s[..a] == Decimal(n) && s[a..] == x && s[a..] == y;
    DecimalInjective(m, n);
  }

  lemma NamedStarts(f: FrameID, x: string)
    ensures StartsNamed(Named(f) + x)
  {
    hide Decimal, Hex;
    var s := Named(f) + x;
    forall i | 0 <= i < 32 ensures s[i] in DIGITS {
      HexChars(f.chID, i);
    }
  }

  lemma TxStringIsTail(cur: ChannelID, id: seq<FrameID>)
    ensures Tail(TxString(cur, id))
  {
    hide Named, Decimal, StartsNamed;
    if id != [] {
      var rest := TxString(id[0].chID, id[1..]);
      if id[0].chID != cur && cur == NO_CHANNEL {
        NamedStarts(id[0], rest);
        assert "" + Named(id[0]) == Named(id[0]);
      } else {
        assert Piece(cur, id[0])[0] in {'+', '|'};
        assert TxString(cur, id)[0] == Piece(cur, id[0])[0];
      }
    }
  }

  lemma NamedInjective(f: FrameID, x: string, g: FrameID, y: string)
    requires Tail(x) && Tail(y) && Named(f) + x == Named(g) + y
    ensures f == g && x == y
  {
    hide Decimal, Hex, IsDigit, Tail;
    var s := Named(f) + x;
    assert s[..32] == Hex(f.chID) && s[..32] == Hex(g.chID);
    assert s[33..] == Decimal(f.frameNumber) + x && s[33..] == Decimal(g.frameNumber) + y;
    HexInjective(f.chID, g.chID);
    NumberReadsBack(f.frameNumber, x, g.frameNumber, y);
  }

  /** The three ways a piece can start are told apart by its first character. */
  lemma FirstChar(cur: ChannelID, f: FrameID)
    ensures |Piece(cur, f)| > 1
    ensures f.chID == cur <==> Piece(cur, f)[0] == '+'
  {
    HexChars(f.chID, 0);
  }

  lemma SameFirstChar(cur: ChannelID, f: FrameID, x: string, g: FrameID, y: string)
    requires Piece(cur, f) + x == Piece(cur, g) + y
    ensures f.chID == cur <==> g.chID == cur
  {
    hide Piece;
    FirstChar(cur, f);
    FirstChar(cur, g);
    assert (Piece(cur, f) + x)[0] == Piece(cur, f)[0] && (Piece(cur, g) + y)[0] == Piece(cur, g)[0];
  }

  lemma DropLead(a: string, b: string, c: string)
    ensures (a + b + c)[|a|..] == b + c
  {
  }

  /** The first frame and the rest can be read back. */
  lemma PieceInjective(cur: ChannelID, f: FrameID, x: string, g: FrameID, y: string)
    requires Tail(x) && Tail(y)
    requires Piece(cur, f) + x == Piece(cur, g) + y
    ensures f == g && x == y
  {
    hide Named, Decimal, Hex, IsDigit, Lead, Tail;
    SameFirstChar(cur, f, x, g, y);
    if f.chID == cur {
      DropLead("+", Decimal(f.frameNumber), x);
      DropLead("+", Decimal(g.frameNumber), y);
      NumberReadsBack(f.frameNumber, x, g.frameNumber, y);
    } else {
      DropLead(Lead(cur), Named(f), x);
      DropLead(Lead(cur), Named(g), y);
      NamedInjective(f, x, g, y);
    }
  }

  /** Different lists of frames have different keys. */
  lemma {:induction false} TxStringInjective(cur: ChannelID, a: seq<FrameID>, b: seq<FrameID>)
    requires TxString(cur, a) == TxString(cur, b)
    ensures a == b
    decreases |a|
  {
    hide Piece, Tail;
    if a != [] { FirstChar(cur, a[0]); }
    if b != [] { FirstChar(cur, b[0]); }
    if a != [] && b != [] {
      var x, y := TxString(a[0].chID, a[1..]), TxString(b[0].chID, b[1..]);
      TxStringIsTail(a[0].chID, a[1..]);
      TxStringIsTail(b[0].chID, b[1..]);
      PieceInjective(cur, a[0], x, b[0], y);
      TxStringInjective(a[0].chID, a[1..], b[1..]);
      assert a == [a[0]] + a[1..] && b == [b[0]] + b[1..];
    }
  }
}
