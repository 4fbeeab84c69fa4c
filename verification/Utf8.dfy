/** Which byte strings are UTF-8, byte by byte, and that these are exactly the encodings of characters. */
module Utf8 {
  import opened Common

  /** Between two characters, or inside one: how many bytes it still needs and where the next must lie. */
  datatype State = Whole | Inside(more: nat, lo: nat, hi: nat)

  function Step(st: State, b: byte): Option<State> {
    match st
    case Whole =>
      if b < 0x80 then Some(Whole)
      else if 0xC2 <= b <= 0xDF then Some(Inside(1, 0x80, 0xBF))
      else if b == 0xE0 then Some(Inside(2, 0xA0, 0xBF))
      else if b == 0xED then Some(Inside(2, 0x80, 0x9F))
      else if 0xE1 <= b <= 0xEF then Some(Inside(2, 0x80, 0xBF))
      else if b == 0xF0 then Some(Inside(3, 0x90, 0xBF))
      else if 0xF1 <= b <= 0xF3 then Some(Inside(3, 0x80, 0xBF))
      else if b == 0xF4 then Some(Inside(3, 0x80, 0x8F))
      else None
    case Inside(more, lo, hi) =>
      if !(lo <= b <= hi) then None else if more <= 1 then Some(Whole) else Some(Inside(more - 1, 0x80, 0xBF))
  }

  lemma StepInside(st: State, b: byte)
    ensures Step(st, b).Some? && Step(st, b).value.Inside? ==> Step(st, b).value.lo > 0
  {
  }

  /** The state behind `s`, or none if `s` cannot be part of UTF-8 here. */
  function Scan(st: State, s: seq<byte>): Option<State>
    decreases |s|
  {
    if s == [] then Some(st)
    else
      var next := Step(st, s[0]);
      if next.None? then None else Scan(next.value, s[1..])
  }

  predicate Valid(s: seq<byte>) {
    Scan(Whole, s) == Some(Whole)
  }

  // ---------------------------------------------------------------- characters

  /** A code point that is not half of a surrogate pair. */
  predicate Scalar(c: nat) {
    c < 0xD800 || 0xE000 <= c < 0x110000
  }

  function Encoded(c: nat): (s: seq<byte>)
    requires Scalar(c)
    ensures s != []
  {
    if c < 0x80 then [c]
    else if c < 0x800 then [0xC0 + c / 64, 0x80 + c % 64]
    else if c < 0x10000 then [0xE0 + c / 4096, 0x80 + c / 64 % 64, 0x80 + c % 64]
    else [0xF0 + c / 262144, 0x80 + c / 4096 % 64, 0x80 + c / 64 % 64, 0x80 + c % 64]
  }

  function EncodedAll(chars: seq<nat>): seq<byte>
    requires forall c :: c in chars ==> Scalar(c)
  {
    if chars == [] then [] else Encoded(chars[0]) + EncodedAll(chars[1..])
  }

  lemma ScanOne(st: State, b: byte, rest: seq<byte>)
    ensures Scan(st, [b] + rest) == if Step(st, b).None? then None else Scan(Step(st, b).value, rest)
  {
    assert ([b] + rest)[1..] == rest;
  }

  /** An encoded character is passed over. */
  lemma ScanEncoded(c: nat, rest: seq<byte>)
    requires Scalar(c)
    ensures Scan(Whole, Encoded(c) + rest) == Scan(Whole, rest)
  {
    hide Scan;
    var e := Encoded(c);
    if |e| == 1 {
      ScanOne(Whole, e[0], rest);
    } else if |e| == 2 {
      Along(Whole, Step(Whole, e[0]).value, e, rest);
      ScanOne(Step(Whole, e[0]).value, e[1], rest);
    } else if |e| == 3 {
      Along(Whole, Step(Whole, e[0]).value, e, rest);
      Along(Step(Whole, e[0]).value, Inside(1, 0x80, 0xBF), e[1..], rest);
      ScanOne(Inside(1, 0x80, 0xBF), e[2], rest);
    } else {
      Along(Whole, Step(Whole, e[0]).value, e, rest);
      Along(Step(Whole, e[0]).value, Inside(2, 0x80, 0xBF), e[1..], rest);
      Along(Inside(2, 0x80, 0xBF), Inside(1, 0x80, 0xBF), e[1..][1..], rest);
      ScanOne(Inside(1, 0x80, 0xBF), e[3], rest);
    }
  }

  lemma Along(st: State, next: State, e: seq<byte>, rest: seq<byte>)
    requires |e| > 1 && Step(st, e[0]) == Some(next)
    ensures Scan(st, e + rest) == Scan(next, e[1..] + rest)
    ensures |e| == 2 ==> e[1..] == [e[1]]
  {
    hide Step;
    assert e + rest == [e[0]] + (e[1..] + rest);
    ScanOne(st, e[0], e[1..] + rest);
  }

  /** Where a character begins, one is encoded there. */
  lemma FirstCharacter(s: seq<byte>) returns (c: nat)
    requires Valid(s) && s != []
    ensures Scalar(c) && Encoded(c) <= s && Valid(s[|Encoded(c)|..])
  {
    hide Scan, Encoded, Scalar;
    ScanHead(Whole, s);
    if s[0] < 0x80 {
      c := OneByte(s[0]);
    } else {
      var st1 := Step(Whole, s[0]).value;
      ScanHead(st1, s[1..]);
      var st2 := Step(st1, s[1]).value;
      assert s[1..][1..] == s[2..];
      if s[0] < 0xE0 {
        c := TwoBytes(s[0], s[1]);
      } else {
        ScanHead(st2, s[2..]);
        var st3 := Step(st2, s[2]).value;
        assert s[2..][1..] == s[3..];
        if s[0] < 0xF0 {
          c := ThreeBytes(s[0], s[1], s[2]);
        } else {
          ScanHead(st3, s[3..]);
          assert s[3..][1..] == s[4..];
          c := FourBytes(s[0], s[1], s[2], s[3]);
        }
      }
    }
  }

  lemma OneByte(a: nat) returns (c: nat)
    requires a < 0x80
    ensures Scalar(c) && Encoded(c) == [a]
  {
    c := a;
  }

  lemma TwoBytes(a: nat, b: nat) returns (c: nat)
    requires 0xC2 <= a <= 0xDF && 0x80 <= b <= 0xBF
    ensures Scalar(c) && Encoded(c) == [a, b]
  {
    c := (a - 0xC0) * 64 + (b - 0x80);
  }

  lemma ThreeBytes(a: nat, b: nat, d: nat) returns (c: nat)
    requires 0xE0 <= a <= 0xEF && 0x80 <= b <= 0xBF && 0x80 <= d <= 0xBF
    requires (a == 0xE0 ==> b >= 0xA0) && (a == 0xED ==> b <= 0x9F)
    ensures Scalar(c) && Encoded(c) == [a, b, d]
  {
    c := (a - 0xE0) * 4096 + (b - 0x80) * 64 + (d - 0x80);
    Places(0, a - 0xE0, b - 0x80, d - 0x80);
  }

  lemma FourBytes(a: nat, b: nat, d: nat, e: nat) returns (c: nat)
    requires 0xF0 <= a <= 0xF4 && 0x80 <= b <= 0xBF && 0x80 <= d <= 0xBF && 0x80 <= e <= 0xBF
    requires (a == 0xF0 ==> b >= 0x90) && (a == 0xF4 ==> b <= 0x8F)
    ensures Scalar(c) && Encoded(c) == [a, b, d, e]
  {
    c := (a - 0xF0) * 262144 + (b - 0x80) * 4096 + (d - 0x80) * 64 + (e - 0x80);
    Places(a - 0xF0, b - 0x80, d - 0x80, e - 0x80);
  }

  lemma ScanHead(st: State, s: seq<byte>)
    requires Scan(st, s) == Some(Whole)
    ensures s == [] ==> st == Whole
    ensures s != [] ==> Step(st, s[0]).Some? && Scan(Step(st, s[0]).value, s[1..]) == Some(Whole)
  {
  }

  lemma Places(w: nat, x: nat, y: nat, z: nat)
    requires x < 64 && y < 64 && z < 64
    ensures var c := w * 262144 + x * 4096 + y * 64 + z; c / 262144 == w && c / 4096 % 64 == x && c / 64 % 64 == y && c % 64 == z
  {
    var c := w * 262144 + x * 4096 + y * 64 + z;
    Quotient(c, 262144, w, x * 4096 + y * 64 + z);
    Quotient(c, 4096, w * 64 + x, y * 64 + z);
    Quotient(c, 64, w * 4096 + x * 64 + y, z);
    Quotient(w * 64 + x, 64, w, x);
    Quotient(w * 4096 + x * 64 + y, 64, w * 64 + x, y);
  }

  lemma {:induction false} EncodedValid(chars: seq<nat>)
    requires forall c :: c in chars ==> Scalar(c)
    ensures Valid(EncodedAll(chars))
  {
    if chars != [] {
      EncodedValid(chars[1..]);
      ScanEncoded(chars[0], EncodedAll(chars[1..]));
    }
  }

  /** Exactly the encodings of characters are valid. */
  lemma {:induction false} ValidEncoded(s: seq<byte>) returns (chars: seq<nat>)
    requires Valid(s)
    ensures (forall c :: c in chars ==> Scalar(c)) && EncodedAll(chars) == s
    decreases |s|
  {
    hide Encoded, Scan, Scalar;
    if s == [] {
      chars := [];
    } else {
      var c := FirstCharacter(s);
      var more := ValidEncoded(s[|Encoded(c)|..]);
      chars := [c] + more;
      assert chars[1..] == more;
    }
  }
}
