/** Password strings: printing, parsing and verification. The key derivation is a parameter. */
module Passwords {
  import opened Base64
  import Decimals
  import opened Options
  import opened Strings

  const ARGON_VERSION := 19
  const MEMORY := 65536
  const ITERATIONS := 3
  const PARALLELISM := 2

  /** password, salt, iterations, memory, parallelism, key length */
  type Derivation = (seq<Byte>, seq<Byte>, nat, nat, nat, nat) -> seq<Byte>

  datatype Hash = Hash(memory: nat, iterations: nat, parallelism: nat, salt: seq<Byte>, key: seq<Byte>)

  function Parameter(name: string, n: nat): string {
    name + "=" + Decimals.Print(n)
  }

  function Encoded(h: Hash): string {
    "$argon2id$" + Parameter("v", ARGON_VERSION)
    + "$" + Parameter("m", h.memory) + "," + Parameter("t", h.iterations) + "," + Parameter("p", h.parallelism)
    + "$" + Encode(h.salt) + "$" + Encode(h.key)
  }

  /** `salt` is the random salt of this call. */
  function HashPassword(derive: Derivation, password: seq<Byte>, salt: seq<Byte>): string {
    Encoded(Hash(MEMORY, ITERATIONS, PARALLELISM, salt, derive(password, salt, ITERATIONS, MEMORY, PARALLELISM, 32)))
  }

  function ParseValue(value: string, name: string): Option<int> {
    if HasPrefix(value, name + "=") then Decimals.Atoi(value[|name| + 1..]) else None
  }

  predicate Within(value: Option<int>, low: int, high: int) {
    value.Some? && low <= value.value <= high
  }

  predicate Acceptable(h: Hash) {
    && 8 * 1024 <= h.memory <= 256 * 1024 && 1 <= h.iterations <= 10 && 1 <= h.parallelism <= 16
    && 8 <= |h.salt| <= 64 && 16 <= |h.key| <= 64
  }

  /** The checks of verifyPassword in their order; None is ErrInvalidPasswordHash. */
  function Parse(encoded: string): (r: Option<Hash>)
    ensures r.Some? ==> Acceptable(r.value)
  {
    var parts := Split(encoded, '$');
    if |parts| != 6 || parts[1] != "argon2id" then None
    else
      if ParseValue(parts[2], "v") != Some(ARGON_VERSION) then None
      else
        var params := Split(parts[3], ',');
        if |params| != 3 then None
        else
          var memory := ParseValue(params[0], "m");
          var iterations := ParseValue(params[1], "t");
          var parallelism := ParseValue(params[2], "p");
          if !Within(memory, 8 * 1024, 256 * 1024) || !Within(iterations, 1, 10)
            || !Within(parallelism, 1, 16) then None
          else
            var salt := Decode(parts[4]);
            if salt.None? || |salt.value| < 8 || |salt.value| > 64 then None
            else
              var key := Decode(parts[5]);
              if key.None? || |key.value| < 16 || |key.value| > 64 then None
              else Some(Hash(memory.value, iterations.value, parallelism.value, salt.value, key.value))
  }

  function Uint32(n: int): nat {
    n % 0x1_0000_0000
  }

  function Uint8(n: int): nat {
    n % 0x100
  }

  function VerifyPassword(derive: Derivation, encoded: string, password: seq<Byte>): Option<bool> {
    var parsed := Parse(encoded);
    if parsed.None? then None
    else
      var h := parsed.value;
      var actual := derive(password, h.salt, Uint32(h.iterations), Uint32(h.memory), Uint8(h.parallelism),
                           Uint32(|h.key|));
      Some(actual == h.key)
  }

  /** No accepted parameter is cut by the conversions in front of the derivation. */
  lemma NothingIsTruncated(encoded: string)
    requires Parse(encoded).Some?
    ensures var h := Parse(encoded).value;
            && Uint32(h.iterations) == h.iterations && Uint32(h.memory) == h.memory
            && Uint8(h.parallelism) == h.parallelism && Uint32(|h.key|) == |h.key|
  {
    hide Split, Decode, ParseValue;
  }

  lemma ParseParameter(name: string, n: nat)
    ensures ParseValue(Parameter(name, n), name) == if n <= Decimals.MAX_INT then Some(n) else None
  {
    hide Decimals.Atoi, Decimals.Print;
    var value := Parameter(name, n);
    assert value[..|name| + 1] == name + "=";
    assert value[|name| + 1..] == Decimals.Print(n);
    Decimals.AtoiOfPrint(n);
  }

  lemma ParameterFree(name: string, n: nat, c: char)
    requires !Decimals.IsDigit(c) && c != '=' && Free(name, c)
    ensures Free(Parameter(name, n), c)
  {
    hide Decimals.Print;
    Decimals.FreeOf(n, c);
  }

  function Params(h: Hash): seq<string> {
    [Parameter("m", h.memory), Parameter("t", h.iterations), Parameter("p", h.parallelism)]
  }

  function Parts(h: Hash): seq<string> {
    ["", "argon2id", Parameter("v", ARGON_VERSION), Join(Params(h), ','), Encode(h.salt), Encode(h.key)]
  }

  lemma SplitParams(h: Hash)
    ensures Split(Join(Params(h), ','), ',') == Params(h) && Free(Join(Params(h), ','), '$')
  {
    hide Split, Join, Parameter;
    ParameterFree("m", h.memory, ',');
    ParameterFree("t", h.iterations, ',');
    ParameterFree("p", h.parallelism, ',');
    SplitJoin(Params(h), ',');
    ParameterFree("m", h.memory, '$');
    ParameterFree("t", h.iterations, '$');
    ParameterFree("p", h.parallelism, '$');
    JoinWithout(Params(h), ',', '$');
  }

  lemma SplitEncoded(h: Hash)
    ensures Split(Join(Parts(h), '$'), '$') == Parts(h)
  {
    hide Split, Join, Parameter, Encode;
    SplitParams(h);
    ParameterFree("v", ARGON_VERSION, '$');
    Base64.FreeOf(h.salt, '$');
    Base64.FreeOf(h.key, '$');
    SplitJoin(Parts(h), '$');
  }

  lemma JoinThree(a: string, b: string, c: string)
    ensures Join([a, b, c], ',') == a + "," + (b + "," + c)
  {
    assert Join([c], ',') == c;
    hide Join;
    JoinFirst(b, [c], ',');
    JoinFirst(a, [b, c], ',');
    assert [b] + [c] == [b, c] && [a] + [b, c] == [a, b, c];
  }

  lemma Assembled(v: string, m: string, t: string, p: string, salt: string, key: string)
    ensures "$argon2id$" + v + "$" + m + "," + t + "," + p + "$" + salt + "$" + key
         == "" + "$" + "argon2id" + "$" + v + "$" + (m + "," + (t + "," + p)) + "$" + salt + "$" + key
  {
    assert "" + "$" + "argon2id" + "$" == "$argon2id$";
    var head := "$argon2id$" + v + "$";
    assert head + m + "," + t + "," + p == head + (m + "," + (t + "," + p));
  }

  lemma EncodedIsJoined(h: Hash)
    ensures Encoded(h) == Join(Parts(h), '$')
  {
    hide Parameter, Encode, Join;
    var p := Params(h);
    JoinThree(p[0], p[1], p[2]);
    var q := Parts(h);
    JoinSix(q[0], q[1], q[2], q[3], q[4], q[5]);
    Assembled(q[2], p[0], p[1], p[2], q[4], q[5]);
  }

  lemma JoinFirst(first: string, rest: seq<string>, c: char)
    requires rest != []
    ensures Join([first] + rest, c) == first + [c] + Join(rest, c)
  {
    assert ([first] + rest)[1..] == rest;
  }

  lemma JoinSix(a: string, b: string, c: string, d: string, e: string, f: string)
    ensures Join([a, b, c, d, e, f], '$') == a + "$" + b + "$" + c + "$" + d + "$" + e + "$" + f
  {
    assert Join([f], '$') == f;
    hide Join;
    JoinFirst(e, [f], '$');
    JoinFirst(d, [e, f], '$');
    JoinFirst(c, [d, e, f], '$');
    JoinFirst(b, [c, d, e, f], '$');
    JoinFirst(a, [b, c, d, e, f], '$');
    assert [e] + [f] == [e, f] && [d] + [e, f] == [d, e, f] && [c] + [d, e, f] == [c, d, e, f];
    assert [b] + [c, d, e, f] == [b, c, d, e, f] && [a] + [b, c, d, e, f] == [a, b, c, d, e, f];
  }

  /** What is printed is parsed back exactly if the limits of the parser allow it, and rejected otherwise. */
  lemma ParseInvertsEncoded(h: Hash)
    ensures Parse(Encoded(h)) == if Acceptable(h) then Some(h) else None
  {
    hide Split, Join, Parameter, ParseValue, Encode, Decode, Encoded;
    EncodedIsJoined(h);
    SplitEncoded(h);
    SplitParams(h);
    ParseParameter("v", ARGON_VERSION);
    ParseParameter("m", h.memory);
    ParseParameter("t", h.iterations);
    ParseParameter("p", h.parallelism);
    RoundTrip(h.salt);
    RoundTrip(h.key);
  }

  /** A password verifies against the string printed for another one exactly if both derive the same
      key with the salt of that string; so every password verifies against its own. */
  lemma HashedPasswordVerifies(derive: Derivation, password: seq<Byte>, salt: seq<Byte>, attempt: seq<Byte>)
    requires |salt| == 16 && |derive(password, salt, 3, 65536, 2, 32)| == 32
    ensures VerifyPassword(derive, HashPassword(derive, password, salt), attempt) ==
            Some(derive(attempt, salt, 3, 65536, 2, 32) == derive(password, salt, 3, 65536, 2, 32))
  {
    hide Parse, Encoded;
    ParseInvertsEncoded(Hash(65536, 3, 2, salt, derive(password, salt, 3, 65536, 2, 32)));
  }

  /** The string that is stored: the parameters of the derivation, the salt and the derived key. */
  lemma HashPasswordPrints(derive: Derivation, password: seq<Byte>, salt: seq<Byte>)
    ensures HashPassword(derive, password, salt) ==
            "$argon2id$v=19$m=65536,t=3,p=2$" + Encode(salt) + "$" + Encode(derive(password, salt, 3, 65536, 2, 32))
  {
    hide Encode, Decimals.Print;
    PrintsLiterals();
    assert "$argon2id$" + ("v" + "=" + "19") + "$" + ("m" + "=" + "65536") + "," + ("t" + "=" + "3") + ","
           + ("p" + "=" + "2") + "$" == "$argon2id$v=19$m=65536,t=3,p=2$";
  }

  lemma PrintsLiterals()
    ensures Decimals.Print(19) == "19" && Decimals.Print(65536) == "65536"
    ensures Decimals.Print(3) == "3" && Decimals.Print(2) == "2"
  {
    assert Decimals.Print(65) == "65" && Decimals.Print(655) == "655" && Decimals.Print(6553) == "6553";
  }

  /** A password verifies exactly if deriving it with the parameters and the salt of an accepted string
      gives the key of that string. */
  lemma VerifyMeans(derive: Derivation, encoded: string, password: seq<Byte>)
    ensures Parse(encoded).None? ==> VerifyPassword(derive, encoded, password).None?
    ensures forall h :: Parse(encoded) == Some(h) ==>
              VerifyPassword(derive, encoded, password) ==
              Some(derive(password, h.salt, h.iterations, h.memory, h.parallelism, |h.key|) == h.key)
  {
    hide Parse, Uint32, Uint8;
    if Parse(encoded).Some? {
      NothingIsTruncated(encoded);
    }
  }

  // ----- what is accepted -----------------------------------------------------------------------

  /** The parts of a password string, and what they denote. */
  datatype Spelling = Spelling(front: string, version: string, memory: string, iterations: string,
                               parallelism: string, salt: string, key: string)

  ghost predicate Separate(w: Spelling) {
    && (forall part :: part in {w.front, w.version, w.memory, w.iterations, w.parallelism, w.salt, w.key} ==>
          '$' !in part)
    && ',' !in w.memory && ',' !in w.iterations && ',' !in w.parallelism
  }

  ghost predicate Denotes(w: Spelling, h: Hash) {
    && Decimals.Atoi(w.version) == Some(19) && Decimals.Atoi(w.memory) == Some(h.memory)
    && Decimals.Atoi(w.iterations) == Some(h.iterations) && Decimals.Atoi(w.parallelism) == Some(h.parallelism)
    && Decode(w.salt) == Some(h.salt) && Decode(w.key) == Some(h.key)
  }

  ghost function Spelled(w: Spelling): string {
    w.front + "$" + "argon2id" + "$" + ("v=" + w.version) + "$"
    + ("m=" + w.memory + "," + ("t=" + w.iterations + "," + ("p=" + w.parallelism))) + "$" + w.salt + "$" + w.key
  }

  ghost function Lists(w: Spelling): seq<string> {
    ["m=" + w.memory, "t=" + w.iterations, "p=" + w.parallelism]
  }

  ghost function Pieces(w: Spelling): seq<string> {
    [w.front, "argon2id", "v=" + w.version, Join(Lists(w), ','), w.salt, w.key]
  }

  lemma SpelledIsJoined(w: Spelling)
    ensures Spelled(w) == Join(Pieces(w), '$')
  {
    hide Join;
    JoinThree(Lists(w)[0], Lists(w)[1], Lists(w)[2]);
    var q := Pieces(w);
    JoinSix(q[0], q[1], q[2], q[3], q[4], q[5]);
  }

  lemma SpelledSplits(w: Spelling)
    requires Separate(w)
    ensures Split(Spelled(w), '$') == Pieces(w) && Split(Pieces(w)[3], ',') == Lists(w)
  {
    hide Split, Join;
    SpelledIsJoined(w);
    ListsFree(w, ',');
    ListsFree(w, '$');
    SplitJoin(Lists(w), ',');
    JoinWithout(Lists(w), ',', '$');
    PiecesFree(w);
    SplitJoin(Pieces(w), '$');
  }

  lemma ListsFree(w: Spelling, c: char)
    requires Separate(w) && c in {',', '$'}
    ensures AllFree(Lists(w), c)
  {
    Front("m=", w.memory, c);
    Front("t=", w.iterations, c);
    Front("p=", w.parallelism, c);
    hide Free;
  }

  lemma PiecesFree(w: Spelling)
    requires Separate(w) && Free(Join(Lists(w), ','), '$')
    ensures AllFree(Pieces(w), '$')
  {
    hide Join;
    Front("", w.front, '$');
    Front("v=", w.version, '$');
    Front("", w.salt, '$');
    Front("", w.key, '$');
    assert Free("argon2id", '$');
    assert "" + w.front == w.front && "" + w.salt == w.salt && "" + w.key == w.key;
    hide Free;
  }

  lemma Front(name: string, text: string, c: char)
    requires c !in name
    ensures c !in text ==> Free(name + text, c)
  {
  }

  lemma ValueRead(value: string, name: string, text: string)
    requires value == name + "=" + text
    ensures ParseValue(value, name) == Decimals.Atoi(text)
  {
    hide Decimals.Atoi;
    assert value[..|name| + 1] == name + "=" && value[|name| + 1..] == text;
  }

  /** Nothing is accepted but a version 19 string of these parts, in this order, within the limits; and
      every such string is, with the values its parts denote. */
  lemma ParseExactly(encoded: string, h: Hash)
    ensures Parse(encoded) == Some(h) <==>
            && 8192 <= h.memory <= 262144 && 1 <= h.iterations <= 10 && 1 <= h.parallelism <= 16
            && 8 <= |h.salt| <= 64 && 16 <= |h.key| <= 64
            && exists w :: Separate(w) && encoded == Spelled(w) && Denotes(w, h)
  {
    hide Split, Join, Spelled, Decode, Separate, Denotes, Parse, Acceptable;
    if Parse(encoded) == Some(h) {
      var w := Taken(encoded, h);
    }
    if Acceptable(h) {
      forall w | Separate(w) && encoded == Spelled(w) && Denotes(w, h) ensures Parse(encoded) == Some(h) {
        SpelledParses(w, h);
      }
    }
    AcceptableMeans(h);
  }

  lemma AcceptableMeans(h: Hash)
    ensures Acceptable(h) <==>
            && 8192 <= h.memory <= 262144 && 1 <= h.iterations <= 10 && 1 <= h.parallelism <= 16
            && 8 <= |h.salt| <= 64 && 16 <= |h.key| <= 64
  {
  }

  lemma SpelledParses(w: Spelling, h: Hash)
    requires Separate(w) && Denotes(w, h) && Acceptable(h)
    ensures Parse(Spelled(w)) == Some(h)
  {
    hide Split, Join, Spelled, Decode, Separate, ParseValue;
    SpelledSplits(w);
    ValueRead("v=" + w.version, "v", w.version);
    ValueRead("m=" + w.memory, "m", w.memory);
    ValueRead("t=" + w.iterations, "t", w.iterations);
    ValueRead("p=" + w.parallelism, "p", w.parallelism);
  }

  lemma ValueText(value: string, name: string) returns (text: string)
    requires ParseValue(value, name).Some?
    ensures value == name + "=" + text && ParseValue(value, name) == Decimals.Atoi(text)
  {
    text := value[|name| + 1..];
  }

  /** Taking an accepted string apart. */
  lemma Taken(encoded: string, h: Hash) returns (w: Spelling)
    requires Parse(encoded) == Some(h)
    ensures Separate(w) && encoded == Spelled(w) && Denotes(w, h)
  {
    hide Split, Join, Decode, ParseValue, Spelled, Separate, Parse, Denotes;
    var p := Split(encoded, '$');
    w := TakenParts(encoded, h);
    JoinSplit(encoded, '$');
    JoinSplit(p[3], ',');
    SpelledIsJoined(w);
    SplitFree(encoded, '$');
    SplitFree(p[3], ',');
    SeparateParts(w, p, Split(p[3], ','));
  }

  lemma TakenParts(encoded: string, h: Hash) returns (w: Spelling)
    requires Parse(encoded) == Some(h)
    ensures Denotes(w, h)
    ensures Split(encoded, '$') == Pieces(w) && Split(Split(encoded, '$')[3], ',') == Lists(w)
  {
    hide Split, Join, Decode, ParseValue;
    var p := Split(encoded, '$');
    var q := Split(p[3], ',');
    var version := ValueText(p[2], "v");
    var memory := ValueText(q[0], "m");
    var iterations := ValueText(q[1], "t");
    var parallelism := ValueText(q[2], "p");
    w := Spelling(p[0], version, memory, iterations, parallelism, p[4], p[5]);
    assert |p| == 6 && |q| == 3 && p[1] == "argon2id" && Denotes(w, h);
    hide Parse, Denotes;
    assert "v" + "=" == "v=" && "m" + "=" == "m=" && "t" + "=" == "t=" && "p" + "=" == "p=";
    assert q == Lists(w);
    JoinSplit(p[3], ',');
    assert p == Pieces(w);
  }

  lemma SeparateParts(w: Spelling, p: seq<string>, q: seq<string>)
    requires p == Pieces(w) && q == Lists(w) && AllFree(p, '$') && AllFree(q, ',')
    requires Split(p[3], ',') == q
    ensures Separate(w)
  {
    hide Split, Join;
    SplitWithout(p[3], ',', '$');
    assert Free(p[0], '$') && Free(p[2], '$') && Free(p[3], '$') && Free(p[4], '$') && Free(p[5], '$');
    assert Free(q[0], ',') && Free(q[1], ',') && Free(q[2], ',');
    assert Free(q[0], '$') && Free(q[1], '$') && Free(q[2], '$');
    Behind("v=", w.version, '$');
    Behind("m=", w.memory, '$');
    Behind("t=", w.iterations, '$');
    Behind("p=", w.parallelism, '$');
    Behind("m=", w.memory, ',');
    Behind("t=", w.iterations, ',');
    Behind("p=", w.parallelism, ',');
    Whole(w.front, '$');
    Whole(w.salt, '$');
    Whole(w.key, '$');
  }

  lemma Behind(name: string, text: string, c: char)
    ensures Free(name + text, c) ==> c !in text
  {
    assert forall i :: 0 <= i < |text| ==> (name + text)[|name| + i] == text[i];
  }

  lemma Whole(text: string, c: char)
    ensures Free(text, c) ==> c !in text
  {
  }
}
