/** Binary strings as the demo writes and reads them: `Number.prototype.toString(2)`,
    `String.prototype.padStart(width, '0')` and `parseInt(s, 2)`, plus the coin-flip strings
    `Math.random() > 0.5 ? '1' : '0'` with the random draws given as booleans. */
module Binary {
  import opened Numbers

  predicate IsBinary(s: string)
  {
    forall i :: 0 <= i < |s| ==> s[i] == '0' || s[i] == '1'
  }

  function Digit(b: nat): char
    requires b < 2
  {
    if b == 0 then '0' else '1'
  }

  /** `n.toString(2)` for a non-negative integer: "0" for zero, otherwise the binary digits
      without leading zeros. */
  function ToBinary(n: nat): (s: string)
    ensures IsBinary(s)
    ensures 1 <= |s|
    ensures |s| > 1 ==> s[0] == '1'
    decreases n
  {
    if n < 2 then [Digit(n)] else ToBinary(n / 2) + [Digit(n % 2)]
  }

  /** `fill` repeated `count` times. */
  function Repeat(fill: char, count: nat): (r: string)
    ensures |r| == count
    ensures forall i :: 0 <= i < count ==> r[i] == fill
  {
    if count == 0 then [] else [fill] + Repeat(fill, count - 1)
  }

  /** `s.padStart(width, fill)`: a string shorter than `width` gets fill characters in front;
      a longer one is returned unchanged. */
  function PadStart(s: string, width: nat, fill: char): (r: string)
    ensures |r| == Max(|s|, width)
    ensures r[|r| - |s|..] == s
    ensures forall i :: 0 <= i < |r| - |s| ==> r[i] == fill
  {
    if |s| >= width then s else Repeat(fill, width - |s|) + s
  }

  /** `parseInt(s, 2)` on a binary string: its value with the first character most significant.
      A string of length w denotes a value below 2^w, and at least 2^(w-1) when it starts with 1. */
  function Value(s: string): (v: nat)
    requires IsBinary(s)
    ensures v < Pow2(|s|)
    ensures |s| > 0 && s[0] == '1' ==> v >= Pow2(|s| - 1)
  {
    if s == [] then 0 else 2 * Value(s[..|s| - 1]) + (if s[|s| - 1] == '1' then 1 else 0)
  }

  /** The zero-padded encoding of a phase index: `i.toString(2).padStart(width, '0')`. It is a
      binary string at least `width` long, and no longer than the digits of i need. */
  function Encode(i: nat, width: nat): (e: string)
    ensures IsBinary(e)
    ensures |e| == Max(width, |ToBinary(i)|)
  {
    PadStart(ToBinary(i), width, '0')
  }

  /** `parseInt(n.toString(2), 2) == n`. */
  lemma {:induction false} ValueOfToBinary(n: nat)
    ensures Value(ToBinary(n)) == n
    decreases n
  {
    if n >= 2 {
      ValueOfToBinary(n / 2);
      var s := ToBinary(n);
      assert s[..|s| - 1] == ToBinary(n / 2);
    }
  }

  /** The binary digits of n fit in w positions exactly when n < 2^w (for w >= 1). */
  lemma {:induction false} ToBinaryFits(n: nat, w: nat)
    requires w >= 1
    ensures |ToBinary(n)| <= w <==> n < Pow2(w)
    decreases n
  {
    Pow2Monotone(1, w);
    if n >= 2 && w >= 2 {
      ToBinaryFits(n / 2, w - 1);
    }
  }

  /** Leading zeros do not change the value parsed. */
  lemma {:induction false} ValueIgnoresLeadingZeros(z: nat, s: string)
    requires IsBinary(s)
    ensures IsBinary(Repeat('0', z) + s)
    ensures Value(Repeat('0', z) + s) == Value(s)
    decreases |s|
  {
    var t := Repeat('0', z) + s;
    if s == [] {
      assert t == Repeat('0', z);
      ValueOfZeros(z);
    } else {
      assert t[..|t| - 1] == Repeat('0', z) + s[..|s| - 1];
      ValueIgnoresLeadingZeros(z, s[..|s| - 1]);
    }
  }

  lemma {:induction false} ValueOfZeros(z: nat)
    ensures IsBinary(Repeat('0', z))
    ensures Value(Repeat('0', z)) == 0
  {
    if z > 0 {
      var t := Repeat('0', z);
      assert t[..z - 1] == Repeat('0', z - 1) by {
        RepeatAppend(z - 1);
      }
      ValueOfZeros(z - 1);
    }
  }

  lemma {:induction false} RepeatAppend(z: nat)
    ensures Repeat('0', z + 1) == Repeat('0', z) + ['0']
  {
    if z > 0 {
      RepeatAppend(z - 1);
    }
  }

  /** The encoding of an index below 2^w is a binary string of exactly w characters that parses
      back to the index. */
  lemma EncodeRoundTrip(i: nat, w: nat)
    requires w >= 1 && i < Pow2(w)
    ensures IsBinary(Encode(i, w))
    ensures |Encode(i, w)| == w
    ensures Value(Encode(i, w)) == i
  {
    var b := ToBinary(i);
    ToBinaryFits(i, w);
    ValueOfToBinary(i);
    ValueOfPadStart(b, w);
  }

  /** Zero padding keeps a binary string binary and keeps its value. */
  lemma ValueOfPadStart(b: string, w: nat)
    requires IsBinary(b)
    ensures IsBinary(PadStart(b, w, '0'))
    ensures Value(PadStart(b, w, '0')) == Value(b)
  {
    if |b| < w {
      assert PadStart(b, w, '0') == Repeat('0', w - |b|) + b;
      ValueIgnoresLeadingZeros(w - |b|, b);
    }
  }

  /** Distinct indices below 2^w have distinct encodings. */
  lemma EncodeInjective(i: nat, j: nat, w: nat)
    requires w >= 1 && i < Pow2(w) && j < Pow2(w) && i != j
    ensures Encode(i, w) != Encode(j, w)
  {
    EncodeRoundTrip(i, w);
    EncodeRoundTrip(j, w);
  }

  /** `Math.random() > 0.5 ? '1' : '0'` for each draw. */
  function CoinFlips(draws: seq<bool>): (r: seq<string>)
    ensures |r| == |draws|
    ensures forall i :: 0 <= i < |r| ==> (r[i] == "1" <==> draws[i]) && (r[i] == "0" <==> !draws[i])
  {
    seq(|draws|, i requires 0 <= i < |draws| => if draws[i] then "1" else "0")
  }
}
