/** The unpadded standard base64 encoding, sections 3.2 and 4 of RFC 4648, and the lenient decoder of
    the Go standard library. */
module Base64 {
  import opened Options
  import opened Strings

  newtype Byte = x: int | 0 <= x < 256

  function Char(v: nat): (c: char)
    requires v < 64
    ensures InAlphabet(c)
  {
    if v < 26 then (v + 65) as char
    else if v < 52 then (v + 71) as char
    else if v < 62 then (v - 4) as char
    else if v == 62 then '+' else '/'
  }

  predicate InAlphabet(c: char) {
    'A' <= c <= 'Z' || 'a' <= c <= 'z' || '0' <= c <= '9' || c == '+' || c == '/'
  }

  function Value(c: char): (v: nat)
    requires InAlphabet(c)
    ensures v < 64
  {
    if 'A' <= c <= 'Z' then c as int - 65
    else if 'a' <= c <= 'z' then c as int - 71
    else if '0' <= c <= '9' then c as int + 4
    else if c == '+' then 62 else 63
  }

  lemma CharValue(v: nat)
    requires v < 64
    ensures Value(Char(v)) == v
  {
  }

  function Encode(bytes: seq<Byte>): (s: string)
    ensures forall i :: 0 <= i < |s| ==> InAlphabet(s[i])
  {
    if bytes == [] then ""
    else
      var a := bytes[0] as int;
      if |bytes| == 1 then [Char(a / 4), Char(a % 4 * 16)]
      else
        var b := bytes[1] as int;
        if |bytes| == 2 then [Char(a / 4), Char(a % 4 * 16 + b / 16), Char(b % 16 * 4)]
        else
          var c := bytes[2] as int;
          [Char(a / 4), Char(a % 4 * 16 + b / 16), Char(b % 16 * 4 + c / 64), Char(c % 64)] + Encode(bytes[3..])
  }

  /** Line breaks are skipped wherever they stand. */
  function Unbroken(s: string): string {
    if s == "" then "" else (if s[0] == '\r' || s[0] == '\n' then "" else [s[0]]) + Unbroken(s[1..])
  }

  /** Decodes groups of four characters; the last may have two or three. Bits of a last group that
      belong to no byte are ignored. */
  function Groups(s: string): Option<seq<Byte>> {
    if s == "" then Some([])
    else if |s| == 1 || !(forall i :: 0 <= i < |s| && i < 4 ==> InAlphabet(s[i])) then None
    else
      var a, b := Value(s[0]), Value(s[1]);
      var first := (a * 4 + b / 16) as Byte;
      if |s| == 2 then Some([first])
      else
        var c := Value(s[2]);
        var second := (b % 16 * 16 + c / 4) as Byte;
        if |s| == 3 then Some([first, second])
        else
          var third := (c % 4 * 64 + Value(s[3])) as Byte;
          var rest := Groups(s[4..]);
          if rest.None? then None else Some([first, second, third] + rest.value)
  }

  function Decode(s: string): Option<seq<Byte>> {
    Groups(Unbroken(s))
  }

  lemma {:induction false} NothingToSkip(s: string)
    requires forall i :: 0 <= i < |s| ==> InAlphabet(s[i])
    ensures Unbroken(s) == s
  {
    if s != "" {
      NothingToSkip(s[1..]);
    }
  }

  lemma Split3(a: int, b: int, c: int)
    requires 0 <= a < 256 && 0 <= b < 256 && 0 <= c < 256
    ensures a / 4 * 4 + (a % 4 * 16 + b / 16) / 16 == a
    ensures (a % 4 * 16 + b / 16) % 16 * 16 + (b % 16 * 4 + c / 64) / 4 == b
    ensures (b % 16 * 4 + c / 64) % 4 * 64 + c % 64 == c
  {
  }

  /** The four characters of three bytes. */
  function Quad(a: int, b: int, c: int): (s: string)
    requires 0 <= a < 256 && 0 <= b < 256 && 0 <= c < 256
    ensures |s| == 4 && forall i :: 0 <= i < 4 ==> InAlphabet(s[i])
  {
    [Char(a / 4), Char(a % 4 * 16 + b / 16), Char(b % 16 * 4 + c / 64), Char(c % 64)]
  }

  lemma QuadValues(a: int, b: int, c: int)
    requires 0 <= a < 256 && 0 <= b < 256 && 0 <= c < 256
    ensures var q := Quad(a, b, c);
            && Value(q[0]) * 4 + Value(q[1]) / 16 == a
            && Value(q[1]) % 16 * 16 + Value(q[2]) / 4 == b
            && Value(q[2]) % 4 * 64 + Value(q[3]) == c
  {
    hide Char, Value;
    Split3(a, b, c);
    CharValue(a / 4);
    CharValue(a % 4 * 16 + b / 16);
    CharValue(b % 16 * 4 + c / 64);
    CharValue(c % 64);
  }

  lemma OneByte(x: Byte)
    ensures Groups(Encode([x])) == Some([x])
  {
    hide Char, Value, InAlphabet;
    QuadValues(x as int, 0, 0);
    assert Encode([x]) == Quad(x as int, 0, 0)[..2];
  }

  lemma TwoBytes(x: Byte, y: Byte)
    ensures Groups(Encode([x, y])) == Some([x, y])
  {
    hide Char, Value, InAlphabet;
    QuadValues(x as int, y as int, 0);
    assert Encode([x, y]) == Quad(x as int, y as int, 0)[..3];
  }

  lemma FirstGroup(x: Byte, y: Byte, z: Byte, rest: string)
    ensures Groups(Quad(x as int, y as int, z as int) + rest) ==
            if Groups(rest).None? then None else Some([x, y, z] + Groups(rest).value)
  {
    hide Char, Value, InAlphabet;
    QuadValues(x as int, y as int, z as int);
    var s := Quad(x as int, y as int, z as int) + rest;
    assert s[4..] == rest;
  }

  lemma {:induction false} GroupsInvertEncode(bytes: seq<Byte>)
    ensures Groups(Encode(bytes)) == Some(bytes)
  {
    hide Quad, Char, Encode, Groups;
    if bytes == [] {
      NoBytes();
    } else if |bytes| == 1 {
      OneByte(bytes[0]);
      assert bytes == [bytes[0]];
    } else if |bytes| == 2 {
      TwoBytes(bytes[0], bytes[1]);
      assert bytes == [bytes[0], bytes[1]];
    } else {
      EncodeFirst(bytes);
      GroupsInvertEncode(bytes[3..]);
      FirstGroup(bytes[0], bytes[1], bytes[2], Encode(bytes[3..]));
      assert bytes == [bytes[0], bytes[1], bytes[2]] + bytes[3..];
    }
  }

  lemma NoBytes()
    ensures Groups(Encode([])) == Some([])
  {
  }

  lemma EncodeFirst(bytes: seq<Byte>)
    requires |bytes| >= 3
    ensures Encode(bytes) == Quad(bytes[0] as int, bytes[1] as int, bytes[2] as int) + Encode(bytes[3..])
  {
    hide Char;
  }

  /** Decoding recovers exactly the encoded bytes. */
  lemma RoundTrip(bytes: seq<Byte>)
    ensures Decode(Encode(bytes)) == Some(bytes)
  {
    NothingToSkip(Encode(bytes));
    GroupsInvertEncode(bytes);
  }

  // ----- the alphabet and the bits ------------------------------------------------------------

  /** The alphabet of table 1 in RFC 4648: both cases of the letters, the digits, plus and slash. */
  lemma AlphabetIsStandard(v: nat)
    ensures Char(0) == 'A' && Char(26) == 'a' && Char(52) == '0' && Char(62) == '+' && Char(63) == '/'
    ensures v < 61 && v != 25 && v != 51 ==> Char(v + 1) - Char(v) == '\U{01}'
  {
  }

  /** The number whose digits to base 64 are these characters, behind those of `n`. */
  ghost function Number64(n: nat, s: string): nat
    requires forall i :: 0 <= i < |s| ==> InAlphabet(s[i])
    decreases |s|
  {
    if s == "" then n else Number64(n * 64 + Value(s[0]), s[1..])
  }

  /** The number whose digits to base 256 are these bytes, behind those of `n`. */
  ghost function Number256(n: nat, bytes: seq<Byte>): nat
    decreases |bytes|
  {
    if bytes == [] then n else Number256(n * 256 + bytes[0] as nat, bytes[1..])
  }

  /** The last group of one or two bytes is filled with zero bits. */
  ghost function Filling(n: nat): nat {
    if n % 3 == 0 then 1 else if n % 3 == 1 then 16 else 4
  }

  /** The characters are the bits of the bytes, six at a time from the first one on. */
  lemma {:induction false} EncodeDenotes(n: nat, bytes: seq<Byte>)
    ensures Number64(n, Encode(bytes)) == Number256(n, bytes) * Filling(|bytes|)
    ensures |Encode(bytes)| == (4 * |bytes| + 2) / 3
    decreases |bytes|
  {
    hide Encode, Number64, Number256, Quad, InAlphabet;
    if |bytes| >= 3 {
      var a, b, c := bytes[0] as nat, bytes[1] as nat, bytes[2] as nat;
      EncodeFirst(bytes);
      FourDigits(n, a, b, c, Encode(bytes[3..]));
      ThreeBytes(n, bytes);
      EncodeDenotes(((n * 256 + a) * 256 + b) * 256 + c, bytes[3..]);
    } else if |bytes| == 2 {
      TwoDenote(n, bytes[0], bytes[1]);
      assert bytes == [bytes[0], bytes[1]];
    } else if |bytes| == 1 {
      OneDenotes(n, bytes[0]);
      assert bytes == [bytes[0]];
    } else {
      NothingDenotes(n);
    }
  }

  lemma NothingDenotes(n: nat)
    ensures Encode([]) == "" && Number64(n, "") == n == Number256(n, [])
  {
  }

  lemma OneDenotes(n: nat, x: Byte)
    ensures Number64(n, Encode([x])) == Number256(n, [x]) * 16 && |Encode([x])| == 2
  {
    hide Char, Value, InAlphabet, Number64, Number256;
    var a, s := x as nat, Encode([x]);
    assert s == Quad(a, 0, 0)[..2];
    CharValue(a / 4);
    CharValue(a % 4 * 16);
    NextDigit(n, s);
    NextDigit(n * 64 + a / 4, s[1..]);
    NextByte(n, [x]);
    NothingDenotes((n * 64 + a / 4) * 64 + a % 4 * 16);
    NothingDenotes(n * 256 + a);
    assert s[1..][1..] == "" && [x][1..] == [];
    assert a == a / 4 * 4 + a % 4;
  }

  lemma TwoDenote(n: nat, x: Byte, y: Byte)
    ensures Number64(n, Encode([x, y])) == Number256(n, [x, y]) * 4 && |Encode([x, y])| == 3
  {
    hide Char, Value, InAlphabet, Number64, Number256;
    var a, b, s := x as nat, y as nat, Encode([x, y]);
    var u, v, w := a / 4, a % 4 * 16 + b / 16, b % 16 * 4;
    assert s == Quad(a, b, 0)[..3];
    CharValue(u);
    CharValue(v);
    CharValue(w);
    NextDigit(n, s);
    NextDigit(n * 64 + u, s[1..]);
    NextDigit((n * 64 + u) * 64 + v, s[1..][1..]);
    NextByte(n, [x, y]);
    NextByte(n * 256 + a, [x, y][1..]);
    NothingDenotes(((n * 64 + u) * 64 + v) * 64 + w);
    NothingDenotes((n * 256 + a) * 256 + b);
    assert s[1..][1..][1..] == "" && [x, y][1..][1..] == [];
    assert a == a / 4 * 4 + a % 4 && b == b / 16 * 16 + b % 16;
  }

  lemma NextDigit(n: nat, s: string)
    requires s != "" && forall i :: 0 <= i < |s| ==> InAlphabet(s[i])
    ensures Number64(n, s) == Number64(n * 64 + Value(s[0]), s[1..])
  {
  }

  lemma NextByte(n: nat, bytes: seq<Byte>)
    requires bytes != []
    ensures Number256(n, bytes) == Number256(n * 256 + bytes[0] as nat, bytes[1..])
  {
  }

  lemma FourDigits(n: nat, a: nat, b: nat, c: nat, rest: string)
    requires a < 256 && b < 256 && c < 256 && forall i :: 0 <= i < |rest| ==> InAlphabet(rest[i])
    ensures Number64(n, Quad(a, b, c) + rest) == Number64(((n * 256 + a) * 256 + b) * 256 + c, rest)
  {
    var q := Quad(a, b, c);
    var s := q + rest;
    QuadDigits(a, b, c);
    hide Value, InAlphabet, Quad, Char, Number64;
    assert s[1..][1..] == s[2..] && s[2..][1..] == s[3..] && s[3..][1..] == s[4..] && s[4..] == rest;
    var v0, v1, v2 := Value(q[0]), Value(q[1]), Value(q[2]);
    NextDigit(n, s);
    NextDigit(n * 64 + v0, s[1..]);
    NextDigit((n * 64 + v0) * 64 + v1, s[2..]);
    NextDigit(((n * 64 + v0) * 64 + v1) * 64 + v2, s[3..]);
  }

  lemma QuadDigits(a: nat, b: nat, c: nat)
    requires a < 256 && b < 256 && c < 256
    ensures var q := Quad(a, b, c);
            Value(q[0]) * 262144 + Value(q[1]) * 4096 + Value(q[2]) * 64 + Value(q[3]) == a * 65536 + b * 256 + c
  {
    hide Char, Value;
    CharValue(a / 4);
    CharValue(a % 4 * 16 + b / 16);
    CharValue(b % 16 * 4 + c / 64);
    CharValue(c % 64);
    SixBits(a, b, c);
  }

  lemma SixBits(a: nat, b: nat, c: nat)
    ensures a / 4 * 262144 + (a % 4 * 16 + b / 16) * 4096 + (b % 16 * 4 + c / 64) * 64 + c % 64 ==
            a * 65536 + b * 256 + c
  {
    assert a == a / 4 * 4 + a % 4;
    assert b == b / 16 * 16 + b % 16;
    assert c == c / 64 * 64 + c % 64;
  }

  lemma ThreeBytes(n: nat, bytes: seq<Byte>)
    requires |bytes| >= 3
    ensures Number256(n, bytes) ==
            Number256(((n * 256 + bytes[0] as nat) * 256 + bytes[1] as nat) * 256 + bytes[2] as nat, bytes[3..])
  {
    hide Number256;
    assert bytes[1..][1..] == bytes[2..] && bytes[2..][1..] == bytes[3..];
    NextByte(n, bytes);
    NextByte(n * 256 + bytes[0] as nat, bytes[1..]);
    NextByte((n * 256 + bytes[0] as nat) * 256 + bytes[1] as nat, bytes[2..]);
  }

  /** What is accepted: after the removal of line breaks, characters of the alphabet, and not one of them
      left over in the last group. */
  lemma {:induction false} GroupsAccept(s: string)
    ensures Groups(s).Some? <==> |s| % 4 != 1 && forall i :: 0 <= i < |s| ==> InAlphabet(s[i])
    decreases |s|
  {
    hide InAlphabet;
    if |s| >= 4 {
      GroupsAccept(s[4..]);
      GroupsNext(s);
      assert forall i :: 4 <= i < |s| ==> s[i] == s[4..][i - 4];
      hide Groups;
    }
  }

  lemma GroupsNext(s: string)
    requires |s| >= 4
    ensures Groups(s).Some? <==> (forall i :: 0 <= i < 4 ==> InAlphabet(s[i])) && Groups(s[4..]).Some?
  {
    hide InAlphabet;
  }

  /** The bits of a last group that belong to no byte. */
  ghost function Spare(n: nat): nat
    ensures Spare(n) > 0
  {
    if n % 4 == 2 then 16 else if n % 4 == 3 then 4 else 1
  }

  lemma SpareAgain(n: nat)
    ensures Spare(n + 4) == Spare(n)
  {
  }

  /** The bytes are the bits of the characters; those that fill no byte are ignored. */
  lemma {:induction false} GroupsDenote(n: nat, s: string)
    requires Groups(s).Some? && forall i :: 0 <= i < |s| ==> InAlphabet(s[i])
    ensures Number256(n, Groups(s).value) ==
            Number64(n, s) / Spare(|s|)
    decreases |s|
  {
    hide Number64, Number256, InAlphabet, Value;
    if s == "" {
      NothingDenotes(n);
    } else {
      NextDigit(n, s);
      var u := n * 64 + Value(s[0]);
      NextDigit(u, s[1..]);
      var v := u * 64 + Value(s[1]);
      if |s| == 2 {
        NothingDenotes(v);
        assert s[1..][1..] == "";
        Bytes1(n, Value(s[0]), Value(s[1]));
      } else {
        assert s[1..][1..] == s[2..];
        NextDigit(v, s[2..]);
        var w := v * 64 + Value(s[2]);
        if |s| == 3 {
          NothingDenotes(w);
          assert s[2..][1..] == "";
          Bytes2(n, Value(s[0]), Value(s[1]), Value(s[2]));
        } else {
          assert s[2..][1..] == s[3..];
          NextDigit(w, s[3..]);
          assert s[3..][1..] == s[4..];
          GroupTail(n, s);
        }
      }
    }
  }

  lemma {:induction false} GroupTail(n: nat, s: string)
    requires |s| >= 4 && Groups(s).Some? && forall i :: 0 <= i < |s| ==> InAlphabet(s[i])
    ensures Number256(n, Groups(s).value) == Number64(FourMore(n, s), s[4..]) / Spare(|s|)
    decreases |s|, 0
  {
    hide Number64, Number256, Value, InAlphabet, Groups, Spare, FourMore;
    GroupsFirst(s);
    TailNumber(n, s);
    SpareAgain(|s| - 4);
    GroupsDenote(FourMore(n, s), s[4..]);
  }

  ghost function FourMore(n: nat, s: string): nat
    requires |s| >= 4 && forall i :: 0 <= i < |s| ==> InAlphabet(s[i])
  {
    (((n * 64 + Value(s[0])) * 64 + Value(s[1])) * 64 + Value(s[2])) * 64 + Value(s[3])
  }

  lemma TailNumber(n: nat, s: string)
    requires |s| >= 4 && Groups(s).Some? && forall i :: 0 <= i < |s| ==> InAlphabet(s[i])
    ensures Groups(s[4..]).Some?
    ensures Number256(n, Groups(s).value) == Number256(FourMore(n, s), Groups(s[4..]).value)
  {
    hide Number256, Value, InAlphabet, Groups;
    GroupsFirst(s);
    ThreeBytes(n, Groups(s).value);
    Bytes3(n, Value(s[0]), Value(s[1]), Value(s[2]), Value(s[3]));
  }

  lemma GroupsFirst(s: string)
    requires |s| >= 4 && Groups(s).Some? && forall i :: 0 <= i < |s| ==> InAlphabet(s[i])
    ensures Groups(s[4..]).Some? && |Groups(s).value| >= 3 && Groups(s).value[3..] == Groups(s[4..]).value
    ensures var bytes := Groups(s).value;
            && bytes[0] as nat == Value(s[0]) * 4 + Value(s[1]) / 16
            && bytes[1] as nat == Value(s[1]) % 16 * 16 + Value(s[2]) / 4
            && bytes[2] as nat == Value(s[2]) % 4 * 64 + Value(s[3])
  {
    hide Value, InAlphabet;
  }

  lemma Bytes1(n: nat, a: nat, b: nat)
    requires a < 64 && b < 64
    ensures Number256(n, [(a * 4 + b / 16) as Byte]) == ((n * 64 + a) * 64 + b) / 16
  {
    var bytes := [(a * 4 + b / 16) as Byte];
    NextByte(n, bytes);
    assert bytes[1..] == [];
    assert b == b / 16 * 16 + b % 16;
  }

  lemma Bytes2(n: nat, a: nat, b: nat, c: nat)
    requires a < 64 && b < 64 && c < 64
    ensures Number256(n, [(a * 4 + b / 16) as Byte, (b % 16 * 16 + c / 4) as Byte]) ==
            (((n * 64 + a) * 64 + b) * 64 + c) / 4
  {
    var bytes := [(a * 4 + b / 16) as Byte, (b % 16 * 16 + c / 4) as Byte];
    hide Number256;
    NextByte(n, bytes);
    NextByte(n * 256 + bytes[0] as nat, bytes[1..]);
    assert bytes[1..] == [bytes[1]] && bytes[1..][1..] == [];
    NothingDenotes((n * 256 + bytes[0] as nat) * 256 + bytes[1] as nat);
    assert b == b / 16 * 16 + b % 16 && c == c / 4 * 4 + c % 4;
  }

  lemma Bytes3(n: nat, a: nat, b: nat, c: nat, d: nat)
    requires a < 64 && b < 64 && c < 64 && d < 64
    ensures ((n * 256 + (a * 4 + b / 16)) * 256 + (b % 16 * 16 + c / 4)) * 256 + (c % 4 * 64 + d) ==
            (((n * 64 + a) * 64 + b) * 64 + c) * 64 + d
  {
    assert b == b / 16 * 16 + b % 16 && c == c / 4 * 4 + c % 4;
  }

  lemma {:induction false} BreaksAreSkipped(a: string, c: char, b: string)
    ensures Unbroken(a + [c] + b) == Unbroken(a) + (if c in {'\r', '\n'} then "" else [c]) + Unbroken(b)
  {
    if a == "" {
      assert a + [c] + b == [c] + b;
    } else {
      assert (a + [c] + b)[1..] == a[1..] + [c] + b;
      BreaksAreSkipped(a[1..], c, b);
    }
  }

  lemma DecodeAccepts(s: string)
    ensures Decode(s).Some? <==>
            var plain := Unbroken(s); |plain| % 4 != 1 && forall i :: 0 <= i < |plain| ==> InAlphabet(plain[i])
  {
    GroupsAccept(Unbroken(s));
  }

  /** No separator of a password string occurs in an encoding. */
  lemma FreeOf(bytes: seq<Byte>, c: char)
    requires !InAlphabet(c)
    ensures Free(Encode(bytes), c)
  {
  }
}
