/** The plain LZ77 decoder of MS-XCA (section 2.4), and an encoder (section 2.3) as its partner. */
module Xpress {

  import opened Wrappers

  const TWO_16 := 0x1_0000
  const TWO_32 := 0x1_0000_0000

  function Pow2(n: nat): (p: nat)
    ensures p > 0
  {
    if n == 0 then 1 else 2 * Pow2(n - 1)
  }

  lemma {:induction false} Pow2Of32()
    ensures Pow2(32) == TWO_32
  {
    assert Pow2(8) == 256;
    assert Pow2(16) == 256 * Pow2(8);
    assert Pow2(24) == 256 * Pow2(16);
    assert Pow2(32) == 256 * Pow2(24);
  }

  function Pow256(n: nat): (p: nat)
    ensures p > 0
  {
    if n == 0 then 1 else 256 * Pow256(n - 1)
  }

  /** Whether bit `k` of `w` is set, bit 0 being the lowest. */
  function Bit(w: nat, k: nat): bool {
    if k == 0 then w % 2 == 1 else Bit(w / 2, k - 1)
  }

  /** The little-endian value of `n` bytes at `i`. */
  function FromBytes(s: seq<byte>, i: nat, n: nat): (v: nat)
    requires i + n <= |s|
    ensures v < Pow256(n)
    decreases n
  {
    if n == 0 then 0 else (s[i] as nat) + 256 * FromBytes(s, i + 1, n - 1)
  }

  function U16(s: seq<byte>, i: nat): (v: nat)
    requires i + 2 <= |s|
    ensures v < TWO_16
  {
    assert Pow256(2) == TWO_16;
    FromBytes(s, i, 2)
  }

  function U32(s: seq<byte>, i: nat): (v: nat)
    requires i + 4 <= |s|
    ensures v < TWO_32
  {
    assert Pow256(4) == TWO_32;
    FromBytes(s, i, 4)
  }

  // ----- The decoder as a function -----------------------------------------------------

  /** `ReadPastEnd` stands for a read beyond the input, which the program excludes by assertion only. */
  datatype Outcome = Decoded(output: seq<byte>) | InvalidData | InsufficientOutput | ReadPastEnd

  /** The local variables of the decoding loop; `half` is the offset of the shared length byte whose
      upper half is still unused, or 0. */
  datatype Cursor = Cursor(inOffset: nat, flagCount: nat, flags: nat, half: nat, output: seq<byte>)

  const START := Cursor(0, 0, 0, 0, [])

  datatype LengthField = LengthField(length: nat, inOffset: nat, half: nat) | BadLength(error: Outcome)

  /** The last levels of the length code: one byte, then 16 bits, then 32 bits. */
  function ReadEscape(input: seq<byte>, i: nat, half: nat): (r: LengthField)
    ensures r.LengthField? ==> i <= r.inOffset && r.length < TWO_32
    ensures r.BadLength? ==> !r.error.Decoded?
  {
    if i + 1 > |input| then BadLength(ReadPastEnd)
    else if input[i] != 255 then LengthField((input[i] as nat) + 15 + 7, i + 1, half)
    else if i + 3 > |input| then BadLength(ReadPastEnd)
    else if U16(input, i + 1) != 0 then
      if U16(input, i + 1) < 15 + 7 then BadLength(InvalidData)
      else LengthField(U16(input, i + 1), i + 3, half)
    else if i + 7 > |input| then BadLength(ReadPastEnd)
    else if U32(input, i + 3) < 15 + 7 then BadLength(InvalidData)
    else LengthField(U32(input, i + 3), i + 7, half)
  }

  /** The length code that follows a match word, without the final 3 that every length gets. */
  function ReadLength(input: seq<byte>, i: nat, half: nat, field: nat): (r: LengthField)
    requires field < 8 && half < |input|
    ensures r.LengthField? ==> i <= r.inOffset && r.length < TWO_32 && r.half < |input|
    ensures r.BadLength? ==> !r.error.Decoded?
  {
    if field != 7 then LengthField(field, i, half)
    else if half == 0 then
      if i + 1 > |input| then BadLength(ReadPastEnd)
      else if input[i] % 16 == 15 then ReadEscape(input, i + 1, i)
      else LengthField((input[i] as nat) % 16 + 7, i + 1, i)
    else if input[half] / 16 == 15 then ReadEscape(input, i, 0)
    else LengthField((input[half] as nat) / 16 + 7, i, 0)
  }

  /** Copies byte after byte, so that a match may overlap the bytes it produces. */
  function CopyMatch(output: seq<byte>, offset: nat, length: nat): (r: seq<byte>)
    requires 1 <= offset <= |output|
    ensures |r| == |output| + length && r[..|output|] == output
    decreases length
  {
    if length == 0 then output
    else CopyMatch(output + [output[|output| - offset]], offset, length - 1)
  }

  datatype ParsedMatch = ParsedMatch(offset: nat, length: nat, inOffset: nat, half: nat) | BadMatch(error: Outcome)

  /** The match word at `i` with its length code; 32 bits hold the length. */
  function ReadMatch(input: seq<byte>, i: nat, half: nat): (r: ParsedMatch)
    requires i + 2 <= |input| && half < |input|
    ensures r.ParsedMatch? ==> i + 2 <= r.inOffset && r.half < |input| && r.offset > 0
    ensures r.BadMatch? ==> !r.error.Decoded?
  {
    var word := U16(input, i);
    var field := ReadLength(input, i + 2, half, word % 8);
    if field.BadLength? then BadMatch(field.error)
    else ParsedMatch(word / 8 + 1, (field.length + 3) % TWO_32, field.inOffset, field.half)
  }

  function DecodeMatch(input: seq<byte>, capacity: nat, c: Cursor, m: ParsedMatch): (r: Outcome)
    requires m.BadMatch? ==> !m.error.Decoded?
    requires m.ParsedMatch? ==> c.inOffset < m.inOffset && m.half < |input| && m.offset > 0
    requires c.inOffset < |input|
    ensures r.Decoded? && |c.output| <= capacity ==> c.output <= r.output && |r.output| <= capacity
    decreases |input| - c.inOffset, 0
  {
    if m.BadMatch? then m.error
    else if m.offset > |c.output| then InvalidData
    else if |c.output| + m.length > capacity then InsufficientOutput
    else Decode(input, capacity,
         c.(inOffset := m.inOffset, half := m.half, output := CopyMatch(c.output, m.offset, m.length)))
  }

  /** Decodes from one flag bit on; `c.flagCount` bits are left in the current flag word. */
  function DecodeFlagged(input: seq<byte>, capacity: nat, c: Cursor): (r: Outcome)
    requires c.flagCount > 0 && c.half < |input|
    ensures r.Decoded? && |c.output| <= capacity ==> c.output <= r.output && |r.output| <= capacity
    decreases |input| - c.inOffset, 1
  {
    var c1 := c.(flagCount := c.flagCount - 1);
    if !Bit(c.flags, c1.flagCount) then
      if |c.output| >= capacity then InsufficientOutput
      else if c.inOffset >= |input| then ReadPastEnd
      else Decode(input, capacity, c1.(inOffset := c.inOffset + 1, output := c.output + [input[c.inOffset]]))
    else if c.inOffset + 1 >= |input| then Decoded(c.output)
    else DecodeMatch(input, capacity, c1, ReadMatch(input, c1.inOffset, c1.half))
  }

  function Refilled(input: seq<byte>, c: Cursor): Cursor
    requires c.flagCount == 0 ==> c.inOffset + 4 <= |input|
  {
    if c.flagCount == 0 then c.(flags := U32(input, c.inOffset), flagCount := 32, inOffset := c.inOffset + 4) else c
  }

  function Decode(input: seq<byte>, capacity: nat, c: Cursor): (r: Outcome)
    requires c.half < |input| || input == []
    ensures r.Decoded? && |c.output| <= capacity ==> c.output <= r.output && |r.output| <= capacity
    decreases |input| - c.inOffset, 2
  {
    if c.inOffset >= |input| then Decoded(c.output)
    else if c.flagCount == 0 && c.inOffset + 4 > |input| then ReadPastEnd
    else DecodeFlagged(input, capacity, Refilled(input, c))
  }

  // ----- The decoder as the program runs it --------------------------------------------

  datatype Status = Ok | Failed(error: Outcome)

  function StatusOf(o: Outcome): Status {
    if o.Decoded? then Ok else Failed(o)
  }

  method WriteByte(output: array<byte>, i: nat, value: byte)
    requires i < output.Length
    modifies output
    ensures output[..i + 1] == old(output[..i]) + [value]
    ensures forall k :: i < k < output.Length ==> output[k] == old(output[k])
  {
    output[i] := value;
  }

  method CopyInPlace(output: array<byte>, start: nat, offset: nat, length: nat)
    requires 1 <= offset <= start && start + length <= output.Length
    modifies output
    ensures output[..start + length] == CopyMatch(old(output[..start]), offset, length)
    ensures forall k :: start + length <= k < output.Length ==> output[k] == old(output[k])
  {
    var outPos := start;
    for i := 0 to length
      invariant outPos == start + i
      invariant CopyMatch(output[..outPos], offset, length - i) == CopyMatch(old(output[..start]), offset, length)
      invariant forall k :: outPos <= k < output.Length ==> output[k] == old(output[k])
    {
      WriteByte(output, outPos, output[outPos - offset]);
      outPos := outPos + 1;
    }
  }

  /** Reads one match at `inOffset` and copies it behind the first `outPos` bytes of `output`. */
  method DecodeMatchInPlace(input: seq<byte>, output: array<byte>, inOffset: nat, half: nat, outPos: nat,
                            ghost flagCount: nat, ghost flags: nat)
    returns (status: Status, next: nat, nextHalf: nat, end: nat)
    requires inOffset + 2 <= |input| && half < |input| && outPos <= output.Length
    modifies output
    ensures var c := Cursor(inOffset, flagCount, flags, half, old(output[..outPos]));
            var expected := DecodeMatch(input, output.Length, c, ReadMatch(input, inOffset, half));
            if status.Failed? then StatusOf(expected) == status && end == outPos
            else && inOffset < next && nextHalf < |input| && outPos <= end <= output.Length
                 && expected == Decode(input, output.Length, Cursor(next, flagCount, flags, nextHalf, output[..end]))
    ensures forall k :: end <= k < output.Length ==> output[k] == old(output[k])
  {
    status, next, nextHalf, end := Ok, inOffset, half, outPos;
    var m := ReadMatch(input, inOffset, half);
    if m.BadMatch? { status := Failed(m.error); return; }
    if m.offset > outPos { status := Failed(InvalidData); return; }
    if outPos + m.length > output.Length { status := Failed(InsufficientOutput); return; }
    CopyInPlace(output, outPos, m.offset, m.length);
    next, nextHalf, end := m.inOffset, m.half, outPos + m.length;
  }

  /** Decodes into `output` in place; bytes behind the returned position keep their value. */
  method DecompressXpress(input: seq<byte>, output: array<byte>) returns (status: Status, outPos: nat)
    modifies output
    ensures status == StatusOf(Decode(input, output.Length, START))
    ensures outPos <= output.Length && forall k :: outPos <= k < output.Length ==> output[k] == old(output[k])
    ensures status.Ok? ==> output[..outPos] == Decode(input, output.Length, START).output
  {
    var inOffset: nat, flagCount: nat, flags: nat, half: nat := 0, 0, 0, 0;
    outPos := 0;
    ghost var expected := Decode(input, output.Length, START);
    while inOffset < |input|
      invariant half < |input| || input == []
      invariant outPos <= output.Length
      invariant Decode(input, output.Length, Cursor(inOffset, flagCount, flags, half, output[..outPos])) == expected
      invariant forall k :: outPos <= k < output.Length ==> output[k] == old(output[k])
      decreases |input| - inOffset
    {
      if flagCount == 0 {
        if inOffset + 4 > |input| { return Failed(ReadPastEnd), outPos; }
        flags := U32(input, inOffset);
        inOffset := inOffset + 4;
        flagCount := 32;
      }
      assert DecodeFlagged(input, output.Length, Cursor(inOffset, flagCount, flags, half, output[..outPos]))
          == expected;
      flagCount := flagCount - 1;
      if !Bit(flags, flagCount) {
        if outPos >= output.Length { return Failed(InsufficientOutput), outPos; }
        if inOffset >= |input| { return Failed(ReadPastEnd), outPos; }
        WriteByte(output, outPos, input[inOffset]);
        inOffset := inOffset + 1;
        outPos := outPos + 1;
      } else {
        if inOffset + 1 >= |input| { break; }
        var next, nextHalf, end;
        status, next, nextHalf, end := DecodeMatchInPlace(input, output, inOffset, half, outPos, flagCount, flags);
        if status.Failed? { return status, outPos; }
        inOffset, half, outPos := next, nextHalf, end;
      }
    }
    status := Ok;
  }

  // ----- Tokens and their encoding -----------------------------------------------------

  datatype Token = Literal(value: byte) | Match(offset: nat, length: nat)

  const MAX_OFFSET := 8192
  const MIN_LENGTH := 3

  /** The offsets and lengths that the format can express. */
  predicate Expressible(t: Token) {
    t.Match? ==> 1 <= t.offset <= MAX_OFFSET && MIN_LENGTH <= t.length < TWO_32
  }

  function SizeOf(t: Token): nat {
    if t.Match? then t.length else 1
  }

  /** Every match is expressible and refers back to bytes that exist when it is reached. */
  predicate ValidTokens(tokens: seq<Token>, produced: nat) {
    tokens == [] ||
    (&& Expressible(tokens[0])
     && (tokens[0].Match? ==> tokens[0].offset <= produced)
     && ValidTokens(tokens[1..], produced + SizeOf(tokens[0])))
  }

  function ExpandOne(t: Token, output: seq<byte>): (r: seq<byte>)
    requires t.Match? ==> 1 <= t.offset <= |output|
    ensures output <= r && |r| == |output| + SizeOf(t)
  {
    match t
    case Literal(value) => output + [value]
    case Match(offset, length) => CopyMatch(output, offset, length)
  }

  /** What the tokens stand for, appended to `output`. */
  function Expand(tokens: seq<Token>, output: seq<byte>): (r: seq<byte>)
    requires ValidTokens(tokens, |output|)
    ensures output <= r
    decreases |tokens|
  {
    if tokens == [] then output else Expand(tokens[1..], ExpandOne(tokens[0], output))
  }

  /** The `n` lowest bytes of `v`, little-endian. */
  function ToBytes(v: nat, n: nat): (s: seq<byte>)
    ensures |s| == n
  {
    if n == 0 then [] else [v % 256] + ToBytes(v / 256, n - 1)
  }

  function Le16(v: nat): seq<byte> {
    ToBytes(v, 2)
  }

  function Le32(v: nat): seq<byte> {
    ToBytes(v, 4)
  }

  /** Matches whose length does not fit the three bits of the match word. */
  predicate IsLong(t: Token) {
    t.Match? && t.length >= MIN_LENGTH + 7
  }

  function Nibble(t: Token): nat
    requires IsLong(t)
  {
    if t.length - MIN_LENGTH - 7 < 15 then t.length - MIN_LENGTH - 7 else 15
  }

  /** The upper half of a shared length byte belongs to the next long match, if there is one. */
  function NextNibble(tokens: seq<Token>): (n: nat)
    ensures n < 16
  {
    if tokens == [] then 0
    else if IsLong(tokens[0]) then Nibble(tokens[0])
    else NextNibble(tokens[1..])
  }

  function EscapeBytes(length: nat): seq<byte>
    requires MIN_LENGTH + 7 <= length < TWO_32
  {
    var rest := length - MIN_LENGTH - 7;
    if rest < 15 then []
    else if rest - 15 < 255 then [rest - 15]
    else [255] + if length - MIN_LENGTH < TWO_16 then Le16(length - MIN_LENGTH)
                 else [0, 0] + Le32(length - MIN_LENGTH)
  }

  /** The data bytes of the first token. `pending` says that an earlier shared length byte has its upper half to
      offer. */
  function TokenBytes(tokens: seq<Token>, pending: bool): seq<byte>
    requires tokens != []
    requires Expressible(tokens[0])
  {
    match tokens[0]
    case Literal(value) => [value]
    case Match(offset, length) =>
      if !IsLong(tokens[0]) then Le16((offset - 1) * 8 + (length - MIN_LENGTH))
      else Le16((offset - 1) * 8 + 7)
           + (if pending then [] else [Nibble(tokens[0]) + 16 * NextNibble(tokens[1..])])
           + EscapeBytes(length)
  }

  /** The flag of the i-th token: set for a match, and where there is no token. */
  predicate FlagOf(tokens: seq<Token>, i: nat) {
    i >= |tokens| || tokens[i].Match?
  }

  /** The flags of the next `n` tokens, shifted in one after the other. */
  function FlagBits(tokens: seq<Token>, n: nat): (bits: nat)
    ensures bits < Pow2(n)
  {
    if n == 0 then 0 else 2 * FlagBits(tokens, n - 1) + if FlagOf(tokens, n - 1) then 1 else 0
  }

  /** Encodes `tokens` when `n` bits of the current flag word are left: every 32 tokens get a flag word
      before their data. */
  function Encode(tokens: seq<Token>, n: nat, pending: bool): seq<byte>
    requires forall t :: t in tokens ==> Expressible(t)
    decreases |tokens|, if n == 0 then 1 else 0
  {
    if n == 0 then Le32(FlagBits(tokens, 32)) + Encode(tokens, 32, pending)
    else if tokens == [] then []
    else TokenBytes(tokens, pending) + Encode(tokens[1..], n - 1, StillPending(tokens[0], pending))
  }

  /** A long match uses up the pending half of a shared byte, or leaves one. */
  predicate StillPending(t: Token, pending: bool) {
    if IsLong(t) then !pending else pending
  }

  lemma {:induction false} ValidTokensAreExpressible(tokens: seq<Token>, produced: nat)
    requires ValidTokens(tokens, produced)
    ensures forall t :: t in tokens ==> Expressible(t)
  {
    if tokens != [] {
      ValidTokensAreExpressible(tokens[1..], produced + SizeOf(tokens[0]));
      assert tokens == [tokens[0]] + tokens[1..];
    }
  }

  // ----- Round trip --------------------------------------------------------------------

  lemma {:induction false} AtLeastOne(x: int, p: nat)
    requires x > 0
    ensures x * p >= p
  {
  }

  lemma {:induction false} QuotientIs(w: nat, p: nat, q: nat, low: nat)
    requires low < p && w == q * p + low
    ensures w / p == q && w % p == low
  {
    var d, m := w / p, w % p;
    assert w == d * p + m;
    assert (d - q) * p == low - m && (q - d) * p == m - low;
    if d > q { AtLeastOne(d - q, p); }
    if q > d { AtLeastOne(q - d, p); }
  }

  lemma {:induction false} BitOfFlagBits(tokens: seq<Token>, n: nat, k: nat)
    requires k < n
    ensures Bit(FlagBits(tokens, n), k) == FlagOf(tokens, n - 1 - k)
  {
    if k > 0 {
      BitOfFlagBits(tokens, n - 1, k - 1);
    }
  }

  /** The lowest `n` bits of `flags` are the flags of the next `n` tokens, the first token's highest. */
  ghost predicate FlagsAgree(flags: nat, tokens: seq<Token>, n: nat) {
    forall k :: 0 <= k < n ==> Bit(flags, k) == FlagOf(tokens, n - 1 - k)
  }

  lemma {:induction false} NextFlag(flags: nat, tokens: seq<Token>, n: nat)
    requires n > 0 && tokens != [] && FlagsAgree(flags, tokens, n)
    ensures Bit(flags, n - 1) == tokens[0].Match? && FlagsAgree(flags, tokens[1..], n - 1)
  {
    assert Bit(flags, n - 1) == FlagOf(tokens, 0);
    forall k | 0 <= k < n - 1 ensures Bit(flags, k) == FlagOf(tokens[1..], n - 2 - k) {
      assert Bit(flags, k) == FlagOf(tokens, n - 1 - k);
    }
  }

  /** `s` holds `piece` at `i`. */
  ghost predicate At(s: seq<byte>, i: nat, piece: seq<byte>) {
    i + |piece| <= |s| && s[i..i + |piece|] == piece
  }

  lemma {:induction false} FromToBytes(s: seq<byte>, i: nat, v: nat, n: nat)
    requires v < Pow256(n) && At(s, i, ToBytes(v, n))
    ensures FromBytes(s, i, n) == v
    decreases n
  {
    if n > 0 {
      AtSplit(s, i, [v % 256], ToBytes(v / 256, n - 1));
      assert s[i] == s[i..i + 1][0];
      FromToBytes(s, i + 1, v / 256, n - 1);
    }
  }

  lemma {:induction false} U16OfLe16(s: seq<byte>, i: nat, v: nat)
    requires v < TWO_16 && At(s, i, Le16(v))
    ensures U16(s, i) == v
  {
    assert Pow256(2) == TWO_16;
    FromToBytes(s, i, v, 2);
  }

  lemma {:induction false} U32OfLe32(s: seq<byte>, i: nat, v: nat)
    requires v < TWO_32 && At(s, i, Le32(v))
    ensures U32(s, i) == v
  {
    assert Pow256(4) == TWO_32;
    FromToBytes(s, i, v, 4);
  }

  lemma {:induction false} AtSplit(s: seq<byte>, i: nat, a: seq<byte>, b: seq<byte>)
    requires At(s, i, a + b)
    ensures At(s, i, a) && At(s, i + |a|, b)
  {
    var t := s[i..i + |a + b|];
    assert t[..|a|] == a && t[|a|..] == b;
    assert s[i..i + |a|] == t[..|a|];
    assert s[i + |a|..i + |a| + |b|] == t[|a|..];
  }

  lemma {:induction false} ReadEscapeOfEscapeBytes(input: seq<byte>, i: nat, half: nat, length: nat)
    requires MIN_LENGTH + 7 + 15 <= length < TWO_32
    requires At(input, i, EscapeBytes(length))
    ensures ReadEscape(input, i, half) == LengthField(length - MIN_LENGTH, i + |EscapeBytes(length)|, half)
  {
    var v := length - MIN_LENGTH;
    if v - 7 - 15 < 255 {
      assert input[i] == EscapeBytes(length)[0];
    } else if v < TWO_16 {
      AtSplit(input, i, [255], Le16(v));
      assert input[i] == input[i..i + 1][0];
      U16OfLe16(input, i + 1, v);
    } else {
      AtSplit(input, i, [255], [0, 0] + Le32(v));
      assert input[i] == input[i..i + 1][0];
      AtSplit(input, i + 1, [0, 0], Le32(v));
      ZeroWord(input, i + 1);
      U32OfLe32(input, i + 3, v);
    }
  }

  lemma {:induction false} ZeroWord(s: seq<byte>, i: nat)
    requires At(s, i, [0, 0])
    ensures U16(s, i) == 0
  {
    assert s[i] == s[i..i + 2][0] && s[i + 1] == s[i..i + 2][1];
    assert FromBytes(s, i + 1, 1) == 0;
  }

  lemma {:induction false} NibbleIsNext(tokens: seq<Token>)
    requires tokens != [] && IsLong(tokens[0])
    ensures NextNibble(tokens) == Nibble(tokens[0])
  {
  }

  /** The decoder reads back the length of a match and leaves the shared byte as the encoder does. */
  lemma {:induction false} ReadLengthOfTokenBytes(input: seq<byte>, i: nat, half: nat, tokens: seq<Token>,
                                                  pending: bool)
    returns (r: LengthField)
    requires tokens != [] && tokens[0].Match? && IsLong(tokens[0])
    requires 1 <= tokens[0].offset <= MAX_OFFSET && tokens[0].length < TWO_32
    requires i > 0 && half < |input| && (pending <==> half != 0)
    requires pending ==> input[half] / 16 == NextNibble(tokens)
    requires At(input, i, (if pending then [] else [Nibble(tokens[0]) + 16 * NextNibble(tokens[1..])])
             + EscapeBytes(tokens[0].length))
    ensures r == ReadLength(input, i, half, 7)
    ensures && r.LengthField? && r.length == tokens[0].length - MIN_LENGTH
            && r.inOffset == i + (if pending then 0 else 1) + |EscapeBytes(tokens[0].length)|
            && r.half < |input| && (r.half != 0 <==> !pending)
            && (!pending ==> input[r.half] / 16 == NextNibble(tokens[1..]))
  {
    var length := tokens[0].length;
    hide NextNibble, ReadEscape;
    r := ReadLength(input, i, half, 7);
    if pending {
      assert [] + EscapeBytes(length) == EscapeBytes(length);
      assert NextNibble(tokens) == Nibble(tokens[0]) by { NibbleIsNext(tokens); }
      if Nibble(tokens[0]) == 15 { ReadEscapeOfEscapeBytes(input, i, 0, length); }
    } else {
      var shared: byte := Nibble(tokens[0]) + 16 * NextNibble(tokens[1..]);
      AtSplit(input, i, [shared], EscapeBytes(length));
      assert input[i] == input[i..i + 1][0] == shared;
      if Nibble(tokens[0]) == 15 { ReadEscapeOfEscapeBytes(input, i + 1, i, length); }
    }
  }

  /** The cursor stands where the encoder stood when `tokens` were left. */
  ghost predicate InStep(input: seq<byte>, c: Cursor, tokens: seq<Token>, pending: bool) {
    && c.flagCount <= 32 && c.inOffset <= |input| && c.half < |input|
    && (c.flagCount > 0 ==> c.inOffset > 0 && FlagsAgree(c.flags, tokens, c.flagCount))
    && (pending <==> c.half != 0)
    && (pending ==> input[c.half] / 16 == NextNibble(tokens))
    && AllExpressible(tokens)
    && input[c.inOffset..] == Encode(tokens, c.flagCount, pending)
  }

  predicate AllExpressible(tokens: seq<Token>) {
    forall t :: t in tokens ==> Expressible(t)
  }

  /** What tokens stand for when they are not all valid: the first match that refers to bytes in front of the output, or
      the first token without room for it, ends the decoding. */
  function Expansion(tokens: seq<Token>, output: seq<byte>, capacity: nat): Outcome
    requires AllExpressible(tokens)
    decreases |tokens|
  {
    if tokens == [] then Decoded(output)
    else
      assert Expressible(tokens[0]);
      if tokens[0].Match? && tokens[0].offset > |output| then InvalidData
      else if |output| + SizeOf(tokens[0]) > capacity then InsufficientOutput
      else Expansion(tokens[1..], ExpandOne(tokens[0], output), capacity)
  }

  lemma {:induction false} ExpansionOfValid(tokens: seq<Token>, output: seq<byte>, capacity: nat)
    requires ValidTokens(tokens, |output|) && |output| <= capacity
    ensures AllExpressible(tokens)
    ensures Expansion(tokens, output, capacity)
         == if |Expand(tokens, output)| <= capacity then Decoded(Expand(tokens, output)) else InsufficientOutput
    decreases |tokens|
  {
    ValidTokensAreExpressible(tokens, |output|);
    if tokens != [] {
      var longer := ExpandOne(tokens[0], output);
      assert Expand(tokens, output) == Expand(tokens[1..], longer);
      if |longer| <= capacity { ExpansionOfValid(tokens[1..], longer, capacity); }
    }
  }

  /** From any point of the encoding on, the decoder produces what the remaining tokens stand for, or reports what is
      wrong with them. */
  lemma {:induction false} DecodeInStep(input: seq<byte>, capacity: nat, c: Cursor, tokens: seq<Token>, pending: bool)
    requires InStep(input, c, tokens, pending) && |c.output| <= capacity
    ensures Decode(input, capacity, c) == Expansion(tokens, c.output, capacity)
    decreases |tokens|, if c.flagCount == 0 then 1 else 0
  {
    hide Decode, Encode, FlagsAgree, NextNibble;
    if c.flagCount == 0 && tokens == [] {
      DecodeLastFlagWord(input, capacity, c, pending);
    } else if c.flagCount == 0 {
      var c1 := FlagWordRead(input, capacity, c, tokens, pending);
      DecodeInStep(input, capacity, c1, tokens, pending);
    } else if tokens == [] {
      EndReached(input, capacity, c, pending);
    } else if tokens[0].Match? && tokens[0].offset > |c.output| {
      BadOffset(input, capacity, c, tokens, pending);
    } else if |c.output| + SizeOf(tokens[0]) > capacity {
      Overflow(input, capacity, c, tokens, pending);
    } else {
      var c1;
      if tokens[0].Literal? {
        c1 := LiteralDecoded(input, capacity, c, tokens, pending);
      } else {
        assert Expressible(tokens[0]);
        c1 := MatchDecoded(input, capacity, c, tokens, pending);
      }
      DecodeInStep(input, capacity, c1, tokens[1..], StillPending(tokens[0], pending));
    }
  }

  lemma {:induction false} EndReached(input: seq<byte>, capacity: nat, c: Cursor, pending: bool)
    requires InStep(input, c, [], pending) && c.flagCount > 0
    ensures Decode(input, capacity, c) == Decoded(c.output)
  {
  }

  lemma {:induction false} FirstPiece(input: seq<byte>, c: Cursor, tokens: seq<Token>, pending: bool)
    returns (next: nat)
    requires InStep(input, c, tokens, pending) && c.flagCount > 0 && tokens != []
    ensures At(input, c.inOffset, TokenBytes(tokens, pending)) && next == c.inOffset + |TokenBytes(tokens, pending)|
    ensures input[next..] == Encode(tokens[1..], c.flagCount - 1, StillPending(tokens[0], pending))
  {
    var piece := TokenBytes(tokens, pending);
    next := SplitOff(input, c.inOffset, piece, Encode(tokens[1..], c.flagCount - 1, StillPending(tokens[0], pending)));
  }

  lemma {:induction false} SplitOff(input: seq<byte>, i: nat, piece: seq<byte>, tail: seq<byte>) returns (next: nat)
    requires i <= |input| && input[i..] == piece + tail
    ensures At(input, i, piece) && next == i + |piece| && input[next..] == tail
  {
    next := i + |piece|;
    assert input[i..][..|piece|] == piece && input[i..][|piece|..] == tail;
  }

  lemma {:induction false} Overflow(input: seq<byte>, capacity: nat, c: Cursor, tokens: seq<Token>, pending: bool)
    requires InStep(input, c, tokens, pending) && |c.output| <= capacity
    requires c.flagCount > 0 && tokens != [] && (tokens[0].Match? ==> tokens[0].offset <= |c.output|)
    requires |c.output| + SizeOf(tokens[0]) > capacity
    ensures Decode(input, capacity, c) == InsufficientOutput
  {
    var next := FirstPiece(input, c, tokens, pending);
    NextFlag(c.flags, tokens, c.flagCount);
    if tokens[0].Match? {
      var m := MatchRead(input, c.inOffset, c.half, tokens, pending);
      MatchOverflows(input, capacity, c, m);
    }
  }

  lemma {:induction false} BadOffset(input: seq<byte>, capacity: nat, c: Cursor, tokens: seq<Token>, pending: bool)
    requires InStep(input, c, tokens, pending)
    requires c.flagCount > 0 && tokens != [] && tokens[0].Match? && tokens[0].offset > |c.output|
    ensures Decode(input, capacity, c) == InvalidData
  {
    var next := FirstPiece(input, c, tokens, pending);
    NextFlag(c.flags, tokens, c.flagCount);
    var m := MatchRead(input, c.inOffset, c.half, tokens, pending);
    MatchRefersBefore(input, capacity, c, m);
  }

  lemma {:induction false} MatchRefersBefore(input: seq<byte>, capacity: nat, c: Cursor, m: ParsedMatch)
    requires c.flagCount > 0 && c.inOffset + 2 <= |input| && c.half < |input|
    requires Bit(c.flags, c.flagCount - 1)
    requires m.ParsedMatch? && m == ReadMatch(input, c.inOffset, c.half) && m.offset > |c.output|
    ensures Decode(input, capacity, c) == InvalidData
  {
    assert Decode(input, capacity, c) == DecodeFlagged(input, capacity, c);
    assert DecodeFlagged(input, capacity, c) == DecodeMatch(input, capacity, c.(flagCount := c.flagCount - 1), m);
  }

  lemma {:induction false} MatchOverflows(input: seq<byte>, capacity: nat, c: Cursor, m: ParsedMatch)
    requires c.flagCount > 0 && c.inOffset + 2 <= |input| && c.half < |input|
    requires Bit(c.flags, c.flagCount - 1)
    requires m.ParsedMatch? && m == ReadMatch(input, c.inOffset, c.half)
    requires m.offset <= |c.output| && |c.output| + m.length > capacity
    ensures Decode(input, capacity, c) == InsufficientOutput
  {
    assert Decode(input, capacity, c) == DecodeFlagged(input, capacity, c);
    assert DecodeFlagged(input, capacity, c) == DecodeMatch(input, capacity, c.(flagCount := c.flagCount - 1), m);
  }

  lemma {:induction false} LiteralDecoded(input: seq<byte>, capacity: nat, c: Cursor, tokens: seq<Token>, pending: bool)
    returns (c1: Cursor)
    requires InStep(input, c, tokens, pending)
    requires tokens != [] && |c.output| + SizeOf(tokens[0]) <= capacity
    requires c.flagCount > 0 && tokens[0].Literal?
    ensures InStep(input, c1, tokens[1..], pending) && c1.output == ExpandOne(tokens[0], c.output)
    ensures Decode(input, capacity, c) == Decode(input, capacity, c1)
  {
    var next := FirstPiece(input, c, tokens, pending);
    NextFlag(c.flags, tokens, c.flagCount);
    assert input[c.inOffset] == input[c.inOffset..c.inOffset + 1][0];
    c1 := c.(flagCount := c.flagCount - 1, inOffset := next, output := ExpandOne(tokens[0], c.output));
    LiteralStep(input, capacity, c, c1);
  }

  lemma {:induction false} LiteralStep(input: seq<byte>, capacity: nat, c: Cursor, c1: Cursor)
    requires c.flagCount > 0 && c.inOffset < |input| && c.half < |input|
    requires !Bit(c.flags, c.flagCount - 1) && |c.output| < capacity
    requires c1 == c.(flagCount := c.flagCount - 1, inOffset := c.inOffset + 1,
                      output := c.output + [input[c.inOffset]])
    ensures Decode(input, capacity, c) == Decode(input, capacity, c1)
  {
  }

  lemma {:induction false} MatchStep(input: seq<byte>, capacity: nat, c: Cursor, m: ParsedMatch, c1: Cursor)
    requires c.flagCount > 0 && c.inOffset + 2 <= |input| && c.half < |input|
    requires Bit(c.flags, c.flagCount - 1)
    requires m.ParsedMatch? && m == ReadMatch(input, c.inOffset, c.half)
    requires m.offset <= |c.output| && |c.output| + m.length <= capacity
    requires c1 == c.(flagCount := c.flagCount - 1, inOffset := m.inOffset, half := m.half,
                      output := CopyMatch(c.output, m.offset, m.length))
    ensures Decode(input, capacity, c) == Decode(input, capacity, c1)
  {
    assert Decode(input, capacity, c) == DecodeFlagged(input, capacity, c);
    assert DecodeFlagged(input, capacity, c) == DecodeMatch(input, capacity, c.(flagCount := c.flagCount - 1), m);
  }

  lemma {:induction false} MatchDecoded(input: seq<byte>, capacity: nat, c: Cursor, tokens: seq<Token>, pending: bool)
    returns (c1: Cursor)
    requires InStep(input, c, tokens, pending)
    requires tokens != [] && |c.output| + SizeOf(tokens[0]) <= capacity
    requires c.flagCount > 0 && tokens[0].Match? && 1 <= tokens[0].offset <= |c.output|
    ensures InStep(input, c1, tokens[1..], StillPending(tokens[0], pending))
    ensures c1.output == ExpandOne(tokens[0], c.output)
    ensures Decode(input, capacity, c) == Decode(input, capacity, c1)
  {
    var next := FirstPiece(input, c, tokens, pending);
    NextFlag(c.flags, tokens, c.flagCount);
    var m := MatchRead(input, c.inOffset, c.half, tokens, pending);
    c1 := c.(flagCount := c.flagCount - 1, inOffset := next, half := m.half, output := ExpandOne(tokens[0], c.output));
    MatchStep(input, capacity, c, m, c1);
  }

  lemma {:induction false} MatchRead(input: seq<byte>, i: nat, half: nat, tokens: seq<Token>, pending: bool)
    returns (m: ParsedMatch)
    requires tokens != [] && tokens[0].Match? && Expressible(tokens[0])
    requires i > 0 && half < |input| && (pending <==> half != 0)
    requires pending ==> input[half] / 16 == NextNibble(tokens)
    requires At(input, i, TokenBytes(tokens, pending))
    ensures i + 2 <= |input| && m == ReadMatch(input, i, half)
    ensures m.ParsedMatch? && m.offset == tokens[0].offset && m.length == tokens[0].length
    ensures m.inOffset == i + |TokenBytes(tokens, pending)| && m.half < |input|
    ensures m.half != 0 <==> StillPending(tokens[0], pending)
    ensures StillPending(tokens[0], pending) ==> input[m.half] / 16 == NextNibble(tokens[1..])
  {
    if IsLong(tokens[0]) {
      m := LongMatchRead(input, i, half, tokens, pending);
    } else {
      var offset, length := tokens[0].offset, tokens[0].length;
      WordParts(offset, length - MIN_LENGTH);
      U16OfLe16(input, i, (offset - 1) * 8 + (length - MIN_LENGTH));
      m := ParsedMatch(offset, length, i + 2, half);
      ReadMatchIs(input, i, half, m, length - MIN_LENGTH);
    }
  }

  lemma {:induction false} LongMatchRead(input: seq<byte>, i: nat, half: nat, tokens: seq<Token>, pending: bool)
    returns (m: ParsedMatch)
    requires tokens != [] && IsLong(tokens[0]) && Expressible(tokens[0])
    requires i > 0 && half < |input| && (pending <==> half != 0)
    requires pending ==> input[half] / 16 == NextNibble(tokens)
    requires At(input, i, TokenBytes(tokens, pending))
    ensures i + 2 <= |input| && m == ReadMatch(input, i, half)
    ensures m.ParsedMatch? && m.offset == tokens[0].offset && m.length == tokens[0].length
    ensures m.inOffset == i + |TokenBytes(tokens, pending)| && m.half < |input|
    ensures m.half != 0 <==> !pending
    ensures !pending ==> input[m.half] / 16 == NextNibble(tokens[1..])
  {
    var offset, length := tokens[0].offset, tokens[0].length;
    WordParts(offset, 7);
    var word := Le16((offset - 1) * 8 + 7);
    var code := (if pending then [] else [Nibble(tokens[0]) + 16 * NextNibble(tokens[1..])]) + EscapeBytes(length);
    assert TokenBytes(tokens, pending) == word + code;
    AtSplit(input, i, word, code);
    U16OfLe16(input, i, (offset - 1) * 8 + 7);
    var r := ReadLengthOfTokenBytes(input, i + 2, half, tokens, pending);
    m := ParsedMatch(offset, length, r.inOffset, r.half);
    ReadMatchIs(input, i, half, m, 7);
  }

  lemma {:induction false} ReadMatchIs(input: seq<byte>, i: nat, half: nat, m: ParsedMatch, field: nat)
    requires i + 2 <= |input| && half < |input| && m.ParsedMatch? && field < 8
    requires 1 <= m.offset <= MAX_OFFSET && MIN_LENGTH <= m.length < TWO_32
    requires U16(input, i) == (m.offset - 1) * 8 + field
    requires ReadLength(input, i + 2, half, field) == LengthField(m.length - MIN_LENGTH, m.inOffset, m.half)
    ensures ReadMatch(input, i, half) == m
  {
    WordParts(m.offset, field);
  }

  lemma {:induction false} WordParts(offset: nat, field: nat)
    requires 1 <= offset <= MAX_OFFSET && field < 8
    ensures (offset - 1) * 8 + field < TWO_16
    ensures ((offset - 1) * 8 + field) / 8 + 1 == offset && ((offset - 1) * 8 + field) % 8 == field
  {
  }

  lemma {:induction false} FlagWordAt(input: seq<byte>, c: Cursor, tokens: seq<Token>, pending: bool)
    requires InStep(input, c, tokens, pending) && c.flagCount == 0
    ensures c.inOffset + 4 <= |input| && FlagsAgree(U32(input, c.inOffset), tokens, 32)
    ensures input[c.inOffset + 4..] == Encode(tokens, 32, pending)
  {
    Pow2Of32();
    var bits := FlagBits(tokens, 32);
    var next := SplitOff(input, c.inOffset, Le32(bits), Encode(tokens, 32, pending));
    U32OfLe32(input, c.inOffset, bits);
    forall k | 0 <= k < 32 ensures Bit(bits, k) == FlagOf(tokens, 32 - 1 - k) {
      BitOfFlagBits(tokens, 32, k);
    }
  }

  /** A flag word without data behind it ends the output: its first bit is set and no match word follows. */
  lemma {:induction false} DecodeLastFlagWord(input: seq<byte>, capacity: nat, c: Cursor, pending: bool)
    requires InStep(input, c, [], pending) && c.flagCount == 0
    ensures Decode(input, capacity, c) == Decoded(c.output)
  {
    FlagWordAt(input, c, [], pending);
    assert Bit(U32(input, c.inOffset), 32 - 1) == FlagOf([], 0);
  }

  lemma {:induction false} FlagWordRead(input: seq<byte>, capacity: nat, c: Cursor, tokens: seq<Token>, pending: bool)
    returns (c1: Cursor)
    requires InStep(input, c, tokens, pending) && c.flagCount == 0 && tokens != []
    ensures c1.flagCount > 0 && c1.output == c.output && InStep(input, c1, tokens, pending)
    ensures Decode(input, capacity, c) == Decode(input, capacity, c1)
  {
    FlagWordAt(input, c, tokens, pending);
    c1 := c.(inOffset := c.inOffset + 4, flagCount := 32, flags := U32(input, c.inOffset));
    var next := FirstPiece(input, c1, tokens, pending);
    assert TokenBytes(tokens, pending) != [];
    RefillStep(input, capacity, c, c1);
  }

  lemma {:induction false} RefillStep(input: seq<byte>, capacity: nat, c: Cursor, c1: Cursor)
    requires c.flagCount == 0 && c.half < |input| && c.inOffset + 4 < |input|
    requires c1 == c.(inOffset := c.inOffset + 4, flagCount := 32, flags := U32(input, c.inOffset))
    ensures Decode(input, capacity, c) == Decode(input, capacity, c1)
  {
    assert Refilled(input, c) == Refilled(input, c1) == c1;
  }

  /** The encoding of a token list: a flag word before every 32 tokens, and one after them if none is open. */
  function EncodeAll(tokens: seq<Token>): seq<byte>
    requires AllExpressible(tokens)
  {
    Encode(tokens, 0, false)
  }

  /** Decoding an encoding yields what the tokens stand for, or what is wrong with the first bad one. */
  lemma {:induction false} DecodesEveryEncoding(tokens: seq<Token>, capacity: nat)
    requires AllExpressible(tokens)
    ensures Decode(EncodeAll(tokens), capacity, START) == Expansion(tokens, [], capacity)
  {
    var input := EncodeAll(tokens);
    assert input[0..] == input;
    DecodeInStep(input, capacity, START, tokens, false);
  }

  /** Decoding the encoding of a valid token list yields what the tokens stand for if the output
      has the room for it, and reports an insufficient output otherwise. */
  lemma {:induction false} RoundTrip(tokens: seq<Token>, capacity: nat)
    requires ValidTokens(tokens, 0)
    ensures AllExpressible(tokens)
    ensures Decode(EncodeAll(tokens), capacity, START)
         == if |Expand(tokens, [])| <= capacity then Decoded(Expand(tokens, [])) else InsufficientOutput
  {
    ExpansionOfValid(tokens, [], capacity);
    DecodesEveryEncoding(tokens, capacity);
  }

  /** A match in a list of otherwise valid tokens that refers to bytes in front of the output is invalid data. */
  lemma {:induction false} BadMatchIsInvalid(tokens: seq<Token>, bad: Token, more: seq<Token>, output: seq<byte>,
                                             capacity: nat)
    requires ValidTokens(tokens, |output|) && |Expand(tokens, output)| <= capacity
    requires bad.Match? && bad.offset > |Expand(tokens, output)| && AllExpressible(tokens + [bad] + more)
    ensures Expansion(tokens + [bad] + more, output, capacity) == InvalidData
    decreases |tokens|
  {
    var all := tokens + [bad] + more;
    if tokens == [] {
      assert all[0] == bad;
    } else {
      var longer := ExpandOne(tokens[0], output);
      assert Expand(tokens, output) == Expand(tokens[1..], longer);
      assert longer <= Expand(tokens[1..], longer);
      assert all[0] == tokens[0] && all[1..] == tokens[1..] + [bad] + more;
      BadMatchIsInvalid(tokens[1..], bad, more, longer, capacity);
    }
  }

  /** A 16-bit or 32-bit length code that a shorter code could have said is invalid data. */
  lemma {:induction false} ShortEscapeIsInvalid(input: seq<byte>, i: nat, half: nat, v: nat)
    requires v < 22
    ensures v > 0 && At(input, i, [255] + Le16(v)) ==> ReadEscape(input, i, half) == BadLength(InvalidData)
    ensures At(input, i, [255, 0, 0] + Le32(v)) ==> ReadEscape(input, i, half) == BadLength(InvalidData)
  {
    if At(input, i, [255] + Le16(v)) {
      AtSplit(input, i, [255], Le16(v));
      assert input[i] == input[i..i + 1][0];
      U16OfLe16(input, i + 1, v);
    }
    if At(input, i, [255, 0, 0] + Le32(v)) {
      AtSplit(input, i, [255, 0, 0], Le32(v));
      assert input[i] == input[i..i + 3][0] && input[i + 1] == input[i..i + 3][1] && input[i + 2] == input[i..i + 3][2];
      U32OfLe32(input, i + 3, v);
    }
  }

  /** A match repeats the last `offset` bytes periodically, also where it overlaps itself. */
  lemma {:induction false} MatchIsPeriodic(output: seq<byte>, offset: nat, length: nat, i: nat)
    requires 1 <= offset <= |output| && i < length
    ensures CopyMatch(output, offset, length)[|output| + i] == output[|output| - offset + i % offset]
    decreases i
  {
    var r := CopyMatch(output, offset, length);
    MatchLooksBack(output, offset, length, i);
    if i >= offset {
      MatchIsPeriodic(output, offset, length, i - offset);
      assert i % offset == (i - offset) % offset by {
        QuotientIs(i, offset, (i - offset) / offset + 1, (i - offset) % offset);
      }
    } else {
      assert i % offset == i by { QuotientIs(i, offset, 0, i); }
      assert r[|output| + i - offset] == r[..|output|][|output| + i - offset];
    }
  }

  lemma {:induction false} MatchLooksBack(output: seq<byte>, offset: nat, length: nat, i: nat)
    requires 1 <= offset <= |output| && i < length
    ensures CopyMatch(output, offset, length)[|output| + i] == CopyMatch(output, offset, length)[|output| + i - offset]
    decreases length
  {
    var longer := output + [output[|output| - offset]];
    var r := CopyMatch(longer, offset, length - 1);
    if i > 0 {
      MatchLooksBack(longer, offset, length - 1, i - 1);
    } else {
      assert r[|output|] == r[..|longer|][|output|];
      assert r[|output| - offset] == r[..|longer|][|output| - offset];
    }
  }
}
