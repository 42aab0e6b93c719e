/**
  Base58 (crypto/crypto.go). Both directions convert between positional
  notations and keep the number of leading zero digits; the conversions are
  inverse for any two bases. Strings are byte strings. The alphabet and its
  inverse table are given by their runs.
 */
module Base58 {
  import opened ByteStrings
  import opened Residues

  type Base = b: int | b > 1 witness 2

  // ---------- positional notation ----------

  ghost predicate Digits(ds: seq<nat>, base: Base) {
    forall i | 0 <= i < |ds| :: ds[i] < base
  }

  function Value(ds: seq<nat>, base: Base): nat {
    if ds == [] then 0 else Value(ds[..|ds| - 1], base) * base + ds[|ds| - 1]
  }

  /** The shortest notation of x: none at all for 0. */
  function Notation(x: nat, base: Base): (ds: seq<nat>)
    ensures Digits(ds, base) && (ds != [] ==> ds[0] != 0)
    decreases x
  {
    if x == 0 then [] else
      Halves(x, base);
      Notation(x / base, base) + [x % base]
  }

  function Zeros(n: nat): seq<nat> {
    seq(n, _ => 0)
  }

  function LeadingZeros(ds: seq<nat>): (n: nat)
    ensures n <= |ds| && (forall i | 0 <= i < n :: ds[i] == 0) && (n < |ds| ==> ds[n] != 0)
  {
    if ds == [] || ds[0] != 0 then 0 else
      var n := LeadingZeros(ds[1..]) + 1;
      assert forall i | 0 < i < n :: ds[i] == ds[1..][i - 1];
      n
  }

  lemma {:induction false} NotationValue(x: nat, base: Base)
    ensures Value(Notation(x, base), base) == x
    decreases x
  {
    if x > 0 {
      Halves(x, base);
      NotationValue(x / base, base);
      var rest := Notation(x / base, base);
      assert (rest + [x % base])[..|rest|] == rest;
    }
  }

  lemma {:induction false} ValueNotation(ds: seq<nat>, base: Base)
    requires Digits(ds, base) && (ds != [] ==> ds[0] != 0)
    ensures Notation(Value(ds, base), base) == ds
  {
    if ds != [] {
      var rest, d := ds[..|ds| - 1], ds[|ds| - 1];
      ValueNotation(rest, base);
      DivUnique(Value(rest, base), d, base);
      assert rest == [] ==> Value(ds, base) == d;
      if rest != [] {
        assert Value(rest, base) > 0;
      }
    }
  }

  /** Leading zeros do not count. */
  lemma {:induction false} ValueZeros(n: nat, ds: seq<nat>, base: Base)
    ensures Value(Zeros(n) + ds, base) == Value(ds, base)
    decreases n + |ds|
  {
    var all := Zeros(n) + ds;
    if ds != [] {
      ValueZeros(n, ds[..|ds| - 1], base);
      assert all[..|all| - 1] == Zeros(n) + ds[..|ds| - 1];
    } else if n > 0 {
      ValueZeros(n - 1, [], base);
      assert all[..|all| - 1] == Zeros(n - 1) + [];
    }
  }

  lemma LeadingZerosOf(n: nat, ds: seq<nat>)
    requires ds != [] ==> ds[0] != 0
    ensures LeadingZeros(Zeros(n) + ds) == n
  {
    var all := Zeros(n) + ds;
    assert n < |all| ==> all[n] == ds[0];
  }

  // ---------- conversion ----------

  /** The same value in another base, with as many leading zeros. */
  function Convert(ds: seq<nat>, from: Base, to: Base): seq<nat> {
    Zeros(LeadingZeros(ds)) + Notation(Value(ds, from), to)
  }

  /** Converting there and back gives the digits back, leading zeros included. */
  lemma ConvertBack(ds: seq<nat>, from: Base, to: Base)
    requires Digits(ds, from)
    ensures Convert(Convert(ds, from, to), to, from) == ds && Digits(Convert(ds, from, to), to)
  {
    var n := LeadingZeros(ds);
    var rest := ds[n..];
    assert ds == Zeros(n) + rest;
    ValueZeros(n, rest, from);
    ValueNotation(rest, from);
    var v := Value(rest, from);
    LeadingZerosOf(n, Notation(v, to));
    ValueZeros(n, Notation(v, to), to);
    NotationValue(v, to);
  }

  // ---------- the alphabet ----------

  /** The letter of a digit: 1-9, A-H, J-N, P-Z, a-k, m-z in ASCII. */
  function Letter(d: nat): byte
    requires d < 58
  {
    if d < 9 then 49 + d
    else if d < 17 then 56 + d
    else if d < 22 then 57 + d
    else if d < 33 then 58 + d
    else if d < 44 then 64 + d
    else 65 + d
  }

  const NO_LETTER: byte := 255

  /** The inverse table. */
  function Digit(c: byte): byte {
    if 49 <= c < 58 then c - 49
    else if 65 <= c < 73 then c - 56
    else if 74 <= c < 79 then c - 57
    else if 80 <= c < 91 then c - 58
    else if 97 <= c < 108 then c - 64
    else if 109 <= c < 123 then c - 65
    else NO_LETTER
  }

  lemma LetterDigit(c: byte, d: nat)
    requires d < 58
    ensures Digit(Letter(d)) == d && (Digit(c) != NO_LETTER ==> Digit(c) < 58 && Letter(Digit(c)) == c)
    ensures Digit(c) == 0 <==> c == Letter(0)
  {
  }

  predicate InAlphabet(s: Bytes) {
    forall i | 0 <= i < |s| :: Digit(s[i]) != NO_LETTER
  }

  function Text(ds: seq<nat>): (s: Bytes)
    requires Digits(ds, 58)
  {
    seq(|ds|, i requires 0 <= i < |ds| => Letter(ds[i]))
  }

  function Read(s: Bytes): seq<nat> {
    seq(|s|, i requires 0 <= i < |s| => Digit(s[i]))
  }

  lemma ReadText(ds: seq<nat>)
    requires Digits(ds, 58)
    ensures Read(Text(ds)) == ds && InAlphabet(Text(ds))
  {
  }

  lemma TextRead(s: Bytes)
    requires InAlphabet(s)
    ensures Digits(Read(s), 58) && Text(Read(s)) == s
  {
    forall i | 0 <= i < |s| ensures Read(s)[i] < 58 && Letter(Read(s)[i]) == s[i] {
      LetterDigit(s[i], 0);
    }
  }

  function Convertible(ds: seq<nat>, from: Base, to: Base): (r: seq<nat>)
    requires Digits(ds, from)
    ensures Digits(r, to)
  {
    ConvertBack(ds, from, to);
    Convert(ds, from, to)
  }

  /** What Encode and Decode compute; a letter outside the alphabet makes the whole string unreadable. */
  function Encoded(b: Bytes): Bytes {
    Text(Convertible(b, 256, 58))
  }

  function Decoded(s: Bytes): Bytes {
    if InAlphabet(s) then TextRead(s); Convertible(Read(s), 58, 256) else []
  }

  /** Decoding undoes encoding, for every byte string. */
  lemma DecodeEncode(b: Bytes)
    ensures InAlphabet(Encoded(b)) && Decoded(Encoded(b)) == b
  {
    ConvertBack(b, 256, 58);
    ReadText(Convert(b, 256, 58));
  }

  /** Encoding undoes decoding for exactly the strings over the alphabet. */
  lemma EncodeDecode(s: Bytes)
    ensures Encoded(Decoded(s)) == s <==> InAlphabet(s)
  {
    if InAlphabet(s) {
      TextRead(s);
      ConvertBack(Read(s), 58, 256);
    } else {
      assert Value([], 256) == 0 && Encoded([]) == [];
    }
  }

  // ---------- the loops ----------

  function Power(base: Base, n: nat): nat {
    if n == 0 then 1 else base * Power(base, n - 1)
  }

  lemma {:induction false} ValuePrepend(d: nat, ds: seq<nat>, base: Base)
    ensures Value([d] + ds, base) == d * Power(base, |ds|) + Value(ds, base)
  {
    if ds == [] {
      assert Value([], base) == 0 && [d] + ds == [d] && [d][..0] == [];
    } else {
      var last := |ds| - 1;
      ValuePrepend(d, ds[..last], base);
      assert ([d] + ds)[..|ds|] == [d] + ds[..last];
      Regroup(d, Power(base, last), Value(ds[..last], base), base);
    }
  }

  lemma Regroup(d: nat, p: nat, v: nat, base: Base)
    ensures (d * p + v) * base == d * (base * p) + v * base
  {
  }

  /** The value of a string, summed up from the last letter on. */
  method SumUp(s: Bytes) returns (ok: bool, answer: nat)
    ensures ok <==> InAlphabet(s)
    ensures ok ==> answer == Value(Read(s), 58)
  {
    var j: nat := 1;
    answer := 0;
    for i := |s| downto 0
      invariant InAlphabet(s[i..]) && answer == Value(Read(s[i..]), 58) && j == Power(58, |s| - i)
    {
      var digit: nat := Digit(s[i]);
      if digit == NO_LETTER {
        return false, 0;
      }
      Prepend(s, i);
      answer := answer + j * digit;
      j := j * 58;
    }
    assert s[0..] == s;
    ok := true;
  }

  lemma Prepend(s: Bytes, i: nat)
    requires i < |s|
    ensures Value(Read(s[i..]), 58) == Power(58, |s| - (i + 1)) * Digit(s[i]) + Value(Read(s[i + 1..]), 58)
    ensures Digit(s[i]) != NO_LETTER && InAlphabet(s[i + 1..]) ==> InAlphabet(s[i..])
  {
    assert Read(s[i..]) == [Digit(s[i])] + Read(s[i + 1..]);
    ValuePrepend(Digit(s[i]), Read(s[i + 1..]), 58);
    assert forall k | 0 < k < |s[i..]| :: s[i..][k] == s[i + 1..][k - 1];
  }

  /** Decode: the value of the letters, with a zero byte for every leading 1. */
  method Decode(s: Bytes) returns (val: Bytes)
    ensures val == Decoded(s)
  {
    var ok, answer := SumUp(s);
    if !ok {
      return [];
    }
    var zeros := CountOnes(s);
    TextRead(s);
    ConvertBack(Read(s), 58, 256);
    val := Zeros(zeros) + Notation(answer, 256);
  }

  method CountOnes(s: Bytes) returns (zeros: nat)
    ensures zeros == LeadingZeros(Read(s))
  {
    zeros := 0;
    while zeros < |s| && s[zeros] == Letter(0)
      invariant zeros <= |s| && forall i | 0 <= i < zeros :: Read(s)[i] == 0
    {
      zeros := zeros + 1;
    }
    ZerosUnique(Read(s), zeros);
  }

  lemma ZerosUnique(ds: seq<nat>, n: nat)
    requires n <= |ds| && (forall i | 0 <= i < n :: ds[i] == 0) && (n < |ds| ==> ds[n] != 0)
    ensures LeadingZeros(ds) == n
  {
  }

  function Backwards<T>(ds: seq<T>): seq<T> {
    seq(|ds|, i requires 0 <= i < |ds| => ds[|ds| - 1 - i])
  }

  /** The letters of a number from the last on, as repeated division yields them. */
  method Divide(v: nat) returns (answer: Bytes)
    ensures Digits(Backwards(Notation(v, 58)), 58) && answer == Text(Backwards(Notation(v, 58)))
  {
    var x := v;
    ghost var ds := [];
    answer := [];
    while x > 0
      invariant Digits(ds, 58) && answer == Text(ds) && Notation(v, 58) == Notation(x, 58) + Backwards(ds)
      decreases x
    {
      Halves(x, 58);
      assert Backwards(ds + [x % 58]) == [x % 58] + Backwards(ds);
      answer, ds := answer + [Letter(x % 58)], ds + [x % 58];
      x := x / 58;
    }
    assert Backwards(Notation(v, 58)) == ds;
  }

  /** Encode: letters by repeated division, a 1 for every leading zero byte, and the whole reversed. */
  method Encode(b: Bytes) returns (s: Bytes)
    ensures s == Encoded(b)
  {
    var answer := Divide(Value(b, 256));
    answer := AddOnes(b, answer, Backwards(Notation(Value(b, 256), 58)));
    s := Reverse(answer);
    Reversal(b);
  }

  method AddOnes(b: Bytes, letters: Bytes, ghost ds: seq<nat>) returns (answer: Bytes)
    requires Digits(ds, 58) && letters == Text(ds)
    ensures answer == Text(ds + Zeros(LeadingZeros(b)))
  {
    answer := letters;
    var i := 0;
    assert ds + Zeros(0) == ds;
    while i < |b| && b[i] == 0
      invariant i <= |b| && answer == Text(ds + Zeros(i)) && forall k | 0 <= k < i :: b[k] == 0
    {
      assert Zeros(i + 1) == Zeros(i) + [0];
      answer := answer + [Letter(0)];
      i := i + 1;
    }
    ZerosUnique(b, i);
  }

  lemma Reversal(b: Bytes)
    ensures var ds := Backwards(Notation(Value(b, 256), 58));
            Digits(ds, 58) && Backwards(Text(ds + Zeros(LeadingZeros(b)))) == Encoded(b)
  {
    var number, n := Notation(Value(b, 256), 58), LeadingZeros(b);
    BackwardsZeros(number, n);
    BackwardsText(Zeros(n) + number);
  }

  lemma BackwardsZeros(ds: seq<nat>, n: nat)
    ensures Backwards(ds) + Zeros(n) == Backwards(Zeros(n) + ds)
  {
  }

  lemma BackwardsText(ds: seq<nat>)
    requires Digits(ds, 58)
    ensures Digits(Backwards(ds), 58) && Backwards(Text(Backwards(ds))) == Text(ds)
  {
    var back := Backwards(ds);
    forall i | 0 <= i < |ds| ensures Backwards(Text(back))[i] == Text(ds)[i] {
      assert back[|ds| - 1 - i] == ds[i];
    }
  }

  method Reverse(a: Bytes) returns (r: Bytes)
    ensures r == Backwards(a)
  {
    r := a;
    var n := |a|;
    for i := 0 to n / 2
      invariant |r| == n
      invariant forall k | 0 <= k < i :: r[k] == a[n - 1 - k] && r[n - 1 - k] == a[k]
      invariant forall k | i <= k < n - i :: r[k] == a[k]
    {
      r := r[i := r[n - 1 - i]][n - 1 - i := r[i]];
    }
    forall k | 0 <= k < n ensures r[k] == a[n - 1 - k] {
      assert k < n / 2 || n - 1 - k < n / 2 || k == n - 1 - k;
      assert n - 1 - (n - 1 - k) == k;
    }
  }
}
