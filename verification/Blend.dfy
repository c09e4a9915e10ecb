/** 32-bit pixels (alpha in the top byte, then red, green, blue) and source-over. */
module Blend {
  import opened Machine

  type Word = U32

  const BACKGROUND: Word := 0xFF00_0000

  function Alpha(p: Word): U8 { p / 0x100_0000 }
  function Red(p: Word): U8 { p / 0x1_0000 % 0x100 }
  function Green(p: Word): U8 { p / 0x100 % 0x100 }
  function Blue(p: Word): U8 { p % 0x100 }

  function Pack(a: U8, r: U8, g: U8, b: U8): Word
  {
    a * 0x100_0000 + r * 0x1_0000 + g * 0x100 + b
  }

  lemma PackChannels(a: U8, r: U8, g: U8, b: U8)
    ensures Alpha(Pack(a, r, g, b)) == a && Red(Pack(a, r, g, b)) == r
    ensures Green(Pack(a, r, g, b)) == g && Blue(Pack(a, r, g, b)) == b
  {
    PackDigit(a, 0x100_0000, r * 0x1_0000 + g * 0x100 + b);
    PackDigit(a * 0x100 + r, 0x1_0000, g * 0x100 + b);
    PackDigit(a * 0x1_0000 + r * 0x100 + g, 0x100, b);
    PackDigit(a, 0x100, r);
    PackDigit(a * 0x100 + r, 0x100, g);
  }

  lemma PackDigit(high: nat, base: nat, low: nat)
    requires low < base && (base == 0x100 || base == 0x1_0000 || base == 0x100_0000)
    ensures (high * base + low) / base == high && (high * base + low) % base == low
  {
  }

  lemma WordIsItsChannels(p: Word)
    ensures p == Pack(Alpha(p), Red(p), Green(p), Blue(p))
  {
    var high, mid := p / 0x100, p / 0x1_0000;
    assert p == 0x100 * high + Blue(p);
    assert high == 0x100 * (high / 0x100) + high % 0x100;
    DivTwice(p);
    assert mid == 0x100 * (mid / 0x100) + mid % 0x100;
  }

  lemma DivTwice(p: Word)
    ensures p / 0x100 / 0x100 == p / 0x1_0000
    ensures p / 0x1_0000 / 0x100 == p / 0x100_0000
  {
  }

  /** `0xFF00_0000 | (word & 0x00FF_FFFF)`. */
  function OpaqueWord(word: Word): Word
  {
    0xFF00_0000 + word % 0x100_0000
  }

  /** Bitwise or of two `bits`-wide words. */
  function BitOr(a: nat, b: nat, bits: nat): nat
  {
    if bits == 0 then 0
    else (if a % 2 == 1 || b % 2 == 1 then 1 else 0) + 2 * BitOr(a / 2, b / 2, bits - 1)
  }

  function Ones(n: nat): nat
  {
    if n == 0 then 0 else 1 + 2 * Ones(n - 1)
  }

  lemma {:induction false} OrWithOnes(a: nat, n: nat)
    ensures BitOr(a, Ones(n), n) == Ones(n)
  {
    if n > 0 {
      OrWithOnes(a / 2, n - 1);
    }
  }

  function ShiftLeft(a: nat, n: nat): nat
  {
    if n == 0 then a else 2 * ShiftLeft(a, n - 1)
  }

  function ShiftRight(a: nat, n: nat): nat
  {
    if n == 0 then a else ShiftRight(a / 2, n - 1)
  }

  function LowBits(a: nat, n: nat): nat
  {
    if n == 0 then 0 else a % 2 + 2 * LowBits(a / 2, n - 1)
  }

  lemma {:induction false} SplitBits(a: nat, n: nat)
    ensures a == ShiftLeft(ShiftRight(a, n), n) + LowBits(a, n) && LowBits(a, n) < ShiftLeft(1, n)
  {
    if n > 0 {
      SplitBits(a / 2, n - 1);
    }
  }

  /** Where the mask has its low zeros the word comes through; the rest goes on. */
  lemma {:induction false} OrShifted(a: nat, mask: nat, bits: nat, n: nat)
    ensures BitOr(a, ShiftLeft(mask, n), bits + n) == ShiftLeft(BitOr(ShiftRight(a, n), mask, bits), n) + LowBits(a, n)
  {
    if n > 0 {
      OrShifted(a / 2, mask, bits, n - 1);
    }
  }

  lemma {:induction false} ShiftTwice(a: nat, m: nat, n: nat)
    ensures ShiftLeft(a, m + n) == ShiftLeft(ShiftLeft(a, n), m)
  {
    if m > 0 {
      ShiftTwice(a, m - 1, n);
    }
  }

  lemma OneByte(a: nat)
    ensures ShiftLeft(a, 8) == a * 0x100
  {
    assert ShiftLeft(a, 2) == 2 * ShiftLeft(a, 1) == 4 * a;
    assert ShiftLeft(a, 4) == 2 * ShiftLeft(a, 3) == 4 * ShiftLeft(a, 2);
    assert ShiftLeft(a, 6) == 2 * ShiftLeft(a, 5) == 4 * ShiftLeft(a, 4);
    assert ShiftLeft(a, 8) == 2 * ShiftLeft(a, 7) == 4 * ShiftLeft(a, 6);
  }

  lemma ThreeBytes(a: nat)
    ensures ShiftLeft(a, 24) == a * 0x100_0000
  {
    hide ShiftLeft;
    OneByte(a);
    OneByte(a * 0x100);
    OneByte(a * 0x1_0000);
    ShiftTwice(a, 16, 8);
    ShiftTwice(ShiftLeft(a, 8), 8, 8);
  }

  const ALPHA_MASK: Word := 0xFF00_0000

  /** What one lane of the vector loop computes. */
  function OrAlpha(word: Word): nat
  {
    BitOr(word, ALPHA_MASK, 32)
  }

  lemma EightOnes()
    ensures Ones(8) == 0xFF
  {
    assert Ones(4) == 15;
  }

  /** The mask sets the alpha byte and lets the low 24 bits through. */
  lemma OrSplits(word: Word)
    ensures word == ShiftRight(word, 24) * 0x100_0000 + LowBits(word, 24) && LowBits(word, 24) < 0x100_0000
    ensures OrAlpha(word) == ALPHA_MASK + LowBits(word, 24)
  {
    hide ShiftLeft, ShiftRight, LowBits, BitOr, Ones;
    SplitBits(word, 24);
    OrShifted(word, 0xFF, 8, 24);
    OrWithOnes(ShiftRight(word, 24), 8);
    EightOnes();
    ThreeBytes(1);
    ThreeBytes(ShiftRight(word, 24));
    ThreeBytes(0xFF);
  }

  lemma LowBytes(word: Word, high: nat, low: nat)
    requires word == high * 0x100_0000 + low && low < 0x100_0000
    ensures OpaqueWord(word) == ALPHA_MASK + low && Alpha(OpaqueWord(word)) == 0xFF
  {
  }

  /** Masking before the OR changes nothing: the scalar and the vector form agree. */
  lemma MaskIsRedundant(word: Word)
    ensures OrAlpha(word) == OpaqueWord(word)
    ensures Alpha(OpaqueWord(word)) == 0xFF
  {
    hide ShiftRight, LowBits, OrAlpha, OpaqueWord, Alpha;
    OrSplits(word);
    LowBytes(word, ShiftRight(word, 24), LowBits(word, 24));
  }

  /** `u32::from_le_bytes`. */
  function FromLittleEndian(b0: U8, b1: U8, b2: U8, b3: U8): Word
  {
    Pack(b3, b2, b1, b0)
  }

  datatype SourcePixel = Opaque(pixel: Word) | Premultiplied(a: U8, r: U8, g: U8, b: U8)

  /** Decoding rejects a colour above its alpha, so sources are premultiplied. */
  predicate WellFormed(src: SourcePixel)
  {
    src.Premultiplied? ==> src.r <= src.a && src.g <= src.a && src.b <= src.a
  }

  function Div255(value: nat): nat
  {
    (value + 127) / 255
  }

  /** One channel of the general formula, before the clamp. */
  function BlendChannel(src: U8, dst: U8, alpha: U8): nat
  {
    src + Div255(dst * (255 - alpha))
  }

  /** The last arm of `compose_source_over`, clamps included. */
  function GeneralOver(a: U8, r: U8, g: U8, b: U8, dst: Word): Word
  {
    Pack(0xFF,
         Min(BlendChannel(r, Red(dst), a), 255),
         Min(BlendChannel(g, Green(dst), a), 255),
         Min(BlendChannel(b, Blue(dst), a), 255))
  }

  /** `compose_source_over`. */
  function SourceOver(src: SourcePixel, dst: Word): Word
  {
    match src
    case Opaque(pixel) => OpaqueWord(pixel)
    case Premultiplied(a, r, g, b) =>
      if a == 0 then dst
      else if a == 255 then Pack(0xFF, r, g, b)
      else GeneralOver(a, r, g, b, dst)
  }

  lemma Div255Bound(d: U8, k: U8)
    ensures Div255(d * k) <= k
  {
    assert d * k <= 255 * k;
    assert (d * k + 127) <= 255 * k + 127;
    assert (255 * k + 127) / 255 <= k;
    DivMonotone(d * k + 127, 255 * k + 127);
  }

  lemma DivMonotone(a: nat, b: nat)
    requires a <= b
    ensures a / 255 <= b / 255
  {
  }

  /** Rounded division by 255 is off by less than half a step. */
  lemma Div255RoundsToNearest(value: nat)
    ensures -127 <= 255 * Div255(value) - value <= 127
  {
  }

  /** For premultiplied input the `min(255)` clamps never bind. */
  lemma ClampsNeverBind(src: SourcePixel, dst: Word)
    requires src.Premultiplied? && WellFormed(src)
    ensures BlendChannel(src.r, Red(dst), src.a) <= 255
    ensures BlendChannel(src.g, Green(dst), src.a) <= 255
    ensures BlendChannel(src.b, Blue(dst), src.a) <= 255
  {
    Div255Bound(Red(dst), 255 - src.a);
    Div255Bound(Green(dst), 255 - src.a);
    Div255Bound(Blue(dst), 255 - src.a);
  }

  lemma Div255Exact(d: U8)
    ensures Div255(d * 255) == d
  {
  }

  /** The two alpha shortcuts compute what the general formula computes: the opaque one
      always, the transparent one exactly when the destination is opaque. */
  lemma ShortcutsAgreeWithGeneral(src: SourcePixel, dst: Word)
    requires src.Premultiplied? && WellFormed(src)
    ensures (SourceOver(src, dst) == GeneralOver(src.a, src.r, src.g, src.b, dst))
            <==> (src.a == 0 ==> Alpha(dst) == 0xFF)
  {
    WordIsItsChannels(dst);
    if src.a == 0 {
      Div255Exact(Red(dst));
      Div255Exact(Green(dst));
      Div255Exact(Blue(dst));
      PackChannels(0xFF, Red(dst), Green(dst), Blue(dst));
    }
  }

  /** One channel of a result is the exact source-over value, rounded. */
  predicate Rounds(result: int, src: int, dst: int, alpha: int)
  {
    -127 <= 255 * result - (255 * src + dst * (255 - alpha)) <= 127
  }

  lemma ChannelRounds(src: U8, dst: U8, alpha: U8)
    ensures Rounds(BlendChannel(src, dst, alpha), src, dst, alpha)
  {
    hide Div255;
    var below := dst * (255 - alpha);
    Div255RoundsToNearest(below);
    assert BlendChannel(src, dst, alpha) == src + Div255(below);
  }

  lemma BlendedChannels(src: SourcePixel, dst: Word)
    requires src.Premultiplied? && WellFormed(src) && 0 < src.a
    ensures Red(SourceOver(src, dst)) == BlendChannel(src.r, Red(dst), src.a)
    ensures Green(SourceOver(src, dst)) == BlendChannel(src.g, Green(dst), src.a)
    ensures Blue(SourceOver(src, dst)) == BlendChannel(src.b, Blue(dst), src.a)
    ensures Alpha(SourceOver(src, dst)) == 0xFF
  {
    if src.a == 255 {
      hide Red, Green, Blue, Alpha;
      PackChannels(0xFF, src.r, src.g, src.b);
      OpaqueChannel(src.r, Red(dst));
      OpaqueChannel(src.g, Green(dst));
      OpaqueChannel(src.b, Blue(dst));
    } else {
      hide Red, Green, Blue, Alpha, BlendChannel, Pack;
      ClampsNeverBind(src, dst);
      PackChannels(0xFF, BlendChannel(src.r, Red(dst), src.a), BlendChannel(src.g, Green(dst), src.a), BlendChannel(src.b, Blue(dst), src.a));
    }
  }

  lemma OpaqueChannel(src: U8, dst: U8)
    ensures BlendChannel(src, dst, 255) == src
  {
  }

  /** Source-over in numbers: every channel of a visible premultiplied source over any pixel is
      source plus destination times one minus alpha, to the nearest, and the result is opaque. */
  lemma SourceOverIsExact(src: SourcePixel, dst: Word)
    requires src.Premultiplied? && WellFormed(src) && 0 < src.a
    ensures Rounds(Red(SourceOver(src, dst)), src.r, Red(dst), src.a)
    ensures Rounds(Green(SourceOver(src, dst)), src.g, Green(dst), src.a)
    ensures Rounds(Blue(SourceOver(src, dst)), src.b, Blue(dst), src.a)
    ensures Alpha(SourceOver(src, dst)) == 0xFF
  {
    hide Red, Green, Blue, Alpha, BlendChannel, SourceOver, Rounds;
    BlendedChannels(src, dst);
    ChannelRounds(src.r, Red(dst), src.a);
    ChannelRounds(src.g, Green(dst), src.a);
    ChannelRounds(src.b, Blue(dst), src.a);
  }

  /** Making a word opaque keeps its colours. */
  lemma OpaqueChannels(word: Word)
    ensures Alpha(OpaqueWord(word)) == 0xFF && Red(OpaqueWord(word)) == Red(word)
    ensures Green(OpaqueWord(word)) == Green(word) && Blue(OpaqueWord(word)) == Blue(word)
  {
    WordIsItsChannels(word);
    PackChannels(0xFF, Red(word), Green(word), Blue(word));
    assert OpaqueWord(word) == Pack(0xFF, Red(word), Green(word), Blue(word));
  }

  /** A transparent source changes nothing; an opaque one leaves nothing of what is below. */
  lemma SourceOverExtremes(src: SourcePixel, dst: Word)
    ensures src.Premultiplied? && src.a == 0 ==> SourceOver(src, dst) == dst
    ensures src.Opaque? ==>
      && Alpha(SourceOver(src, dst)) == 0xFF && Red(SourceOver(src, dst)) == Red(src.pixel)
      && Green(SourceOver(src, dst)) == Green(src.pixel) && Blue(SourceOver(src, dst)) == Blue(src.pixel)
  {
    hide OpaqueWord, Alpha, Red, Green, Blue;
    if src.Opaque? {
      OpaqueChannels(src.pixel);
    }
  }

  /** Blending onto an opaque pixel gives an opaque pixel. */
  lemma OverKeepsOpaque(src: SourcePixel, dst: Word)
    requires Alpha(dst) == 0xFF
    ensures Alpha(SourceOver(src, dst)) == 0xFF
  {
    match src
    case Opaque(pixel) => MaskIsRedundant(pixel);
    case Premultiplied(a, r, g, b) =>
      if a == 255 {
        PackChannels(0xFF, r, g, b);
      } else if a != 0 {
        PackChannels(0xFF, Min(BlendChannel(r, Red(dst), a), 255),
                     Min(BlendChannel(g, Green(dst), a), 255), Min(BlendChannel(b, Blue(dst), a), 255));
      }
  }
}
