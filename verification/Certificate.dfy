/**
 When a certificate expires, read from its DER without a library: a reader of length-prefixed
 elements, a walk to the validity, and the two ways of writing a time.
 */
module Certificate {
  import opened Prelude
  import opened Calendar

  // ----- Elements -----

  datatype Element = Element(tag: Byte, content: seq<Byte>, rest: seq<Byte>)

  /** The first element of `der`: its tag, its contents, and what follows it. */
  function Split(der: seq<Byte>): Option<Element> {
    if |der| < 2 then None
    else
      var tag, first, rest := der[0], der[1] as int, der[2..];
      if first < 0x80 then Cut(tag, first, rest)
      else
        var bytes := first - 0x80;
        if bytes == 0 || bytes > 4 || |rest| < bytes then None
        else Cut(tag, BigEndian(rest[..bytes]), rest[bytes..])
  }

  function Cut(tag: Byte, length: nat, rest: seq<Byte>): Option<Element> {
    if |rest| >= length then Some(Element(tag, rest[..length], rest[length..])) else None
  }

  /**
   The length octets of section 8.1.3 of X.690, in their definite forms: short, or long with up to
   four octets, which need not be as few as possible.
   */
  ghost predicate LengthOctets(octets: seq<Byte>, length: nat) {
    || (|octets| == 1 && length < 128 && octets[0] as int == length)
    || (2 <= |octets| <= 5 && octets[0] as int == 128 + |octets| - 1 && BigEndian(octets[1..]) == length)
  }

  /** A number as the fewest octets, most significant first. */
  function Octets(n: nat): (octets: seq<Byte>) {
    if n < 256 then [n] else Octets(n / 256) + [n % 256]
  }

  /** The fewest octets for a length, as DER wants them (section 10.1). */
  function DerLength(length: nat): (octets: seq<Byte>)
    requires length < U32
  {
    if length < 128 then [length]
    else
      OctetsAreFew(length, 4);
      [128 + |Octets(length)|] + Octets(length)
  }

  function Power256(n: nat): nat {
    if n == 0 then 1 else 256 * Power256(n - 1)
  }

  lemma {:induction false} OctetsAreFew(n: nat, most: nat)
    requires most > 0 && n < Power256(most)
    ensures 1 <= |Octets(n)| <= most
  {
    if n >= 256 {
      OctetsAreFew(n / 256, most - 1);
    }
  }

  function Encode(tag: Byte, content: seq<Byte>): seq<Byte>
    requires |content| < U32
  {
    [tag] + DerLength(|content|) + content
  }

  lemma {:induction false} BigEndianOfOctets(n: nat)
    ensures BigEndian(Octets(n)) == n
  {
    if n >= 256 {
      BigEndianOfOctets(n / 256);
    } else {
      assert [n][..0] == [];
    }
  }

  lemma DerLengthIsLength(length: nat)
    requires length < U32
    ensures LengthOctets(DerLength(length), length)
  {
    if length >= 128 {
      OctetsAreFew(length, 4);
      BigEndianOfOctets(length);
      assert DerLength(length)[1..] == Octets(length);
    }
  }

  /** Whatever way its length is written, an element is split off exactly. */
  lemma SplitUndoesEncoding(tag: Byte, octets: seq<Byte>, content: seq<Byte>, rest: seq<Byte>)
    requires LengthOctets(octets, |content|)
    ensures Split([tag] + octets + content + rest) == Some(Element(tag, content, rest))
  {
    var der := [tag] + octets + content + rest;
    var n := |octets| - 1;
    assert Cut(tag, |content|, content + rest) == Some(Element(tag, content, rest)) by {
      assert (content + rest)[..|content|] == content && (content + rest)[|content|..] == rest;
    }
    assert der[2..] == octets[1..] + (content + rest);
    assert der[2..][..n] == octets[1..] && der[2..][n..] == content + rest;
    assert der[0] == tag && der[1] == octets[0];
    if n == 0 {
      assert der[2..] == content + rest;
    }
  }

  /** What is split off was there: nothing is lost, and at least two bytes are gone. */
  lemma SplitLosesNothing(der: seq<Byte>) returns (octets: seq<Byte>)
    requires Split(der).Some?
    ensures var e := Split(der).value;
            LengthOctets(octets, |e.content|) && der == [e.tag] + octets + e.content + e.rest && |e.rest| + 2 <= |der|
  {
    var first, rest := der[1] as int, der[2..];
    var n := if first < 0x80 then 0 else first - 0x80;
    octets := der[1..2 + n];
    assert octets[1..] == rest[..n];
    assert der == [der[0]] + octets + rest[n..];
  }

  /** Splitting succeeds exactly on a definite-length encoding followed by anything. */
  lemma SplitExactly(der: seq<Byte>, e: Element)
    ensures Split(der) == Some(e) <==>
              exists octets :: LengthOctets(octets, |e.content|) && der == [e.tag] + octets + e.content + e.rest
  {
    if Split(der) == Some(e) {
      var octets := SplitLosesNothing(der);
    }
    if octets :| LengthOctets(octets, |e.content|) && der == [e.tag] + octets + e.content + e.rest {
      SplitUndoesEncoding(e.tag, octets, e.content, e.rest);
    }
  }

  // ----- Times -----

  predicate Continuation(b: Byte) {
    0x80 <= b < 0xc0
  }

  /** Section 4 of RFC 3629: how many bytes a well-formed sequence at the beginning of `s` has, 0 for none. */
  function FirstCharacter(s: seq<Byte>): (n: nat)
    requires s != []
    ensures n <= |s|
  {
    var a := s[0];
    if a < 0x80 then 1
    else if 0xc2 <= a <= 0xdf && |s| >= 2 && Continuation(s[1]) then 2
    else if 0xe0 <= a <= 0xef && |s| >= 3 && Continuation(s[1]) && Continuation(s[2])
            && (a == 0xe0 ==> s[1] >= 0xa0) && (a == 0xed ==> s[1] < 0xa0) then 3
    else if 0xf0 <= a <= 0xf4 && |s| >= 4 && Continuation(s[1]) && Continuation(s[2]) && Continuation(s[3])
            && (a == 0xf0 ==> s[1] >= 0x90) && (a == 0xf4 ==> s[1] < 0x90) then 4
    else 0
  }

  predicate Utf8(s: seq<Byte>)
    decreases |s|
  {
    s == [] || (FirstCharacter(s) > 0 && Utf8(s[FirstCharacter(s)..]))
  }

  /** `str::get`: the bytes from `a` to `b`, if both are ends of characters. */
  function Get(text: seq<Byte>, a: nat, b: nat): Option<seq<Byte>>
    requires a <= b
  {
    if b <= |text| && Boundary(text, a) && Boundary(text, b) then Some(text[a..b]) else None
  }

  predicate Boundary(text: seq<Byte>, at: nat) {
    at == |text| || (at < |text| && !Continuation(text[at]))
  }

  predicate Digits(s: seq<Byte>) {
    s != [] && forall i | 0 <= i < |s| :: 48 <= s[i] <= 57
  }

  function Value(s: seq<Byte>): (n: nat)
    requires forall i | 0 <= i < |s| :: 48 <= s[i] <= 57
    ensures |s| == 1 ==> n < 10
    ensures |s| == 2 ==> n < 100
  {
    if s == [] then 0 else Value(s[..|s| - 1]) * 10 + (s[|s| - 1] - 48) as int
  }

  const PLUS: Byte := 43
  const MINUS: Byte := 45

  /** `parse::<u32>` of a few characters: digits, with a plus before them if one likes. */
  function Unsigned(s: seq<Byte>): Option<nat> {
    var digits := if |s| > 1 && s[0] == PLUS then s[1..] else s;
    if Digits(digits) then Some(Value(digits)) else None
  }

  /** `parse::<i32>`: or a minus. */
  function Signed(s: seq<Byte>): Option<int> {
    if |s| > 1 && s[0] == MINUS then
      (if Digits(s[1..]) then Some(0 - Value(s[1..])) else None)
    else Unsigned(s)
  }

  function TwoDigits(n: nat): (s: seq<Byte>)
    requires n < 100
    ensures |s| == 2
  {
    [48 + n / 10, 48 + n % 10]
  }

  function FourDigits(n: nat): (s: seq<Byte>)
    requires n < 10000
    ensures |s| == 4
  {
    TwoDigits(n / 100) + TwoDigits(n % 100)
  }

  /** The text of a time with its year in full: UTCTime gets its century, from 50 on the last one. */
  function FullTime(tag: Byte, text: seq<Byte>): Option<seq<Byte>> {
    if tag == 0x17 then
      var year := if Get(text, 0, 2).Some? then Signed(Get(text, 0, 2).value) else None;
      if year.None? then None
      else
        var full := if year.value >= 50 then 1900 + year.value else 2000 + year.value;
        Some(FourDigits(full) + text[2..])
    else if tag == 0x18 then Some(text)
    else None
  }

  function Number(full: seq<Byte>, a: nat, b: nat): Option<nat>
    requires a <= b
  {
    if Get(full, a, b).Some? then Unsigned(Get(full, a, b).value) else None
  }

  datatype Instant = Instant(date: Date, hour: nat, minute: nat, second: nat)

  predicate ValidInstant(t: Instant) {
    Valid(t.date) && t.hour < 24 && t.minute < 60 && t.second < 60
  }

  /** Seconds since 1970. */
  function Seconds(t: Instant): int {
    DayNumber(t.date) * 86400 + t.hour * 3600 + t.minute * 60 + t.second
  }

  function TimeOf(tag: Byte, text: seq<Byte>): Option<int> {
    if !Utf8(text) || FullTime(tag, text).None? then None
    else
      var full := FullTime(tag, text).value;
      var year, month, day := Number(full, 0, 4), Number(full, 4, 6), Number(full, 6, 8);
      var hour, minute, second := Number(full, 8, 10), Number(full, 10, 12), Number(full, 12, 14);
      if year.None? || month.None? || day.None? || hour.None? || minute.None? || second.None? then None
      else
        var t := Instant(Date(year.value, month.value, day.value), hour.value, minute.value, second.value);
        if ValidInstant(t) then Some(Seconds(t)) else None
  }

  // ----- Text -----

  /** A Unicode scalar value: no surrogate. */
  predicate Scalar(c: nat) {
    c < 0xd800 || 0xe000 <= c < 0x11_0000
  }

  /** Its UTF-8 by section 3 of RFC 3629. */
  function Utf8Of(c: nat): (s: seq<Byte>)
    requires Scalar(c)
    ensures 1 <= |s| <= 4
  {
    if c < 0x80 then [c]
    else if c < 0x800 then [0xc0 + c / 64, 0x80 + c % 64]
    else if c < 0x1_0000 then [0xe0 + c / 4096, 0x80 + c / 64 % 64, 0x80 + c % 64]
    else [0xf0 + c / 262144, 0x80 + c / 4096 % 64, 0x80 + c / 64 % 64, 0x80 + c % 64]
  }

  function Utf8OfAll(text: seq<nat>): seq<Byte>
    requires forall c | c in text :: Scalar(c)
  {
    if text == [] then [] else Utf8Of(text[0]) + Utf8OfAll(text[1..])
  }

  lemma CharacterFound(c: nat, rest: seq<Byte>)
    requires Scalar(c)
    ensures FirstCharacter(Utf8Of(c) + rest) == |Utf8Of(c)|
  {
    if c < 0x80 {
    } else if c < 0x800 {
      assert 2 <= c / 64 < 32;
    } else if c < 0x1_0000 {
      ThreeBytes(c);
    } else {
      FourBytes(c);
    }
  }

  lemma ThreeBytes(c: nat)
    requires 0x800 <= c < 0x1_0000 && Scalar(c)
    ensures c / 4096 == 0 ==> c / 64 % 64 >= 32
    ensures c / 4096 == 13 ==> c / 64 % 64 < 32
    ensures c / 4096 < 16
  {
  }

  lemma FourBytes(c: nat)
    requires 0x1_0000 <= c < 0x11_0000
    ensures c / 262144 == 0 ==> c / 4096 % 64 >= 16
    ensures c / 262144 == 4 ==> c / 4096 % 64 < 16
    ensures c / 262144 <= 4
  {
  }

  lemma TwoPut(x: nat, y: nat)
    requires 2 <= x < 32 && y < 64
    ensures var c := x * 64 + y; 0x80 <= c < 0x800 && c / 64 == x && c % 64 == y
  {
  }

  lemma ThreePut(x: nat, y: nat, z: nat)
    requires x < 16 && y < 64 && z < 64
    ensures var c := x * 4096 + y * 64 + z; c < 0x1_0000 && c / 4096 == x && c / 64 % 64 == y && c % 64 == z
  {
    var c := x * 4096 + y * 64 + z;
    assert c / 64 == x * 64 + y;
  }

  lemma FourPut(w: nat, x: nat, y: nat, z: nat)
    requires w <= 4 && x < 64 && y < 64 && z < 64
    ensures var c := w * 262144 + x * 4096 + y * 64 + z;
            c / 262144 == w && c / 4096 % 64 == x && c / 64 % 64 == y && c % 64 == z
  {
    var c := w * 262144 + x * 4096 + y * 64 + z;
    assert c / 64 == w * 4096 + x * 64 + y;
    assert c / 4096 == w * 64 + x;
  }

  lemma TwoBytesAreOne(s: seq<Byte>) returns (c: nat)
    requires |s| >= 2 && FirstCharacter(s) == 2
    ensures Scalar(c) && Utf8Of(c) == [s[0], s[1]]
  {
    var x := s[0] as int - 0xc0;
    c := x * 64 + Low(s[1]);
    TwoPut(x, Low(s[1]));
  }

  lemma ThreeBytesAreOne(s: seq<Byte>) returns (c: nat)
    requires |s| >= 3 && FirstCharacter(s) == 3
    ensures Scalar(c) && Utf8Of(c) == [s[0], s[1], s[2]]
  {
    var x := s[0] as int - 0xe0;
    c := x * 4096 + Low(s[1]) * 64 + Low(s[2]);
    ThreePut(x, Low(s[1]), Low(s[2]));
    assert x == 0 ==> Low(s[1]) >= 32;
    assert x == 13 ==> Low(s[1]) < 32;
  }

  lemma FourBytesAreOne(s: seq<Byte>) returns (c: nat)
    requires |s| >= 4 && FirstCharacter(s) == 4
    ensures Scalar(c) && Utf8Of(c) == [s[0], s[1], s[2], s[3]]
  {
    var w := s[0] as int - 0xf0;
    c := w * 262144 + Low(s[1]) * 4096 + Low(s[2]) * 64 + Low(s[3]);
    FourPut(w, Low(s[1]), Low(s[2]), Low(s[3]));
    assert w == 0 ==> Low(s[1]) >= 16;
    assert w == 4 ==> Low(s[1]) < 16;
  }

  /** Whatever is taken for a character is one. */
  lemma CharacterIsOne(s: seq<Byte>) returns (c: nat)
    requires s != [] && FirstCharacter(s) > 0
    ensures Scalar(c) && Utf8Of(c) == s[..FirstCharacter(s)]
  {
    var n := FirstCharacter(s);
    if n == 1 {
      c := s[0] as int;
    } else if n == 2 {
      c := TwoBytesAreOne(s);
    } else if n == 3 {
      c := ThreeBytesAreOne(s);
    } else {
      c := FourBytesAreOne(s);
    }
  }

  /** The six bits of a continuation. */
  function Low(b: Byte): (n: nat)
    requires Continuation(b)
    ensures n < 64 && b as int == 0x80 + n
  {
    b as int - 0x80
  }

  lemma {:induction false} EncodedIsUtf8(text: seq<nat>)
    requires forall c | c in text :: Scalar(c)
    ensures Utf8(Utf8OfAll(text))
  {
    if text != [] {
      assert text[0] in text && forall c | c in text[1..] :: c in text;
      EncodedIsUtf8(text[1..]);
      CharacterFound(text[0], Utf8OfAll(text[1..]));
      var first := Utf8Of(text[0]);
      assert (first + Utf8OfAll(text[1..]))[|first|..] == Utf8OfAll(text[1..]);
    }
  }

  /** Bytes are text exactly if they are some characters in UTF-8. */
  lemma {:induction false} Utf8Exactly(s: seq<Byte>)
    ensures Utf8(s) <==> exists text: seq<nat> :: (forall c | c in text :: Scalar(c)) && s == Utf8OfAll(text)
    decreases |s|
  {
    if Utf8(s) {
      var text := CharactersOf(s);
    }
    if text: seq<nat> :| (forall c | c in text :: Scalar(c)) && s == Utf8OfAll(text) {
      EncodedIsUtf8(text);
    }
  }

  lemma {:induction false} CharactersOf(s: seq<Byte>) returns (text: seq<nat>)
    requires Utf8(s)
    ensures (forall c | c in text :: Scalar(c)) && s == Utf8OfAll(text)
    decreases |s|
  {
    text := [];
    if s != [] {
      var c := CharacterIsOne(s);
      var rest := CharactersOf(s[FirstCharacter(s)..]);
      text := [c] + rest;
      assert text[1..] == rest;
      assert s == s[..FirstCharacter(s)] + s[FirstCharacter(s)..];
    }
  }

  /** A number is its digits, with a plus before them or, where it may be negative, a minus. */
  lemma NumbersExactly(s: seq<Byte>)
    ensures Unsigned(s).Some? <==> Digits(s) || (s != [] && s[0] == 43 && Digits(s[1..]))
    ensures Signed(s).Some? <==> Digits(s) || (s != [] && (s[0] == 43 || s[0] == 45) && Digits(s[1..]))
  {
  }

  lemma SignsRead(digits: seq<Byte>, sign: Byte)
    requires Digits(digits) && (sign == 43 || sign == 45)
    ensures Unsigned(digits) == Some(Value(digits)) && Signed(digits) == Some(Value(digits))
    ensures Unsigned([sign] + digits) == if sign == 43 then Some(Value(digits)) else None
    ensures Signed([sign] + digits) == Some(if sign == 43 then Value(digits) else 0 - Value(digits))
  {
    assert ([sign] + digits)[1..] == digits;
  }

  // ----- The walk -----

  function Skip(der: seq<Byte>, n: nat): Option<seq<Byte>> {
    if n == 0 then Some(der)
    else
      match Split(der)
      case None => None
      case Some(e) => Skip(e.rest, n - 1)
  }

  function Content(der: seq<Byte>): Option<seq<Byte>> {
    match Split(der)
    case None => None
    case Some(e) => Some(e.content)
  }

  /** The element at the end of the path: certificate, its first part, the validity in it, the second time in that. */
  function ExpiryElement(der: seq<Byte>): Option<Element> {
    var certificate := Content(der);
    if certificate.None? then None
    else
      var tbs := Content(certificate.value);
      if tbs.None? || Split(tbs.value).None? then None
      else
        var first := Split(tbs.value).value;
        var before := Skip(if first.tag == 0xa0 then first.rest else tbs.value, 3);
        if before.None? || Content(before.value).None? then None
        else
          var after := Skip(Content(before.value).value, 1);
          if after.None? then None else Split(after.value)
  }

  method NotAfter(der: seq<Byte>) returns (expires: Option<int>)
    ensures expires == if ExpiryElement(der).Some? then TimeOf(ExpiryElement(der).value.tag, ExpiryElement(der).value.content)
                       else None
  {
    var certificate := Split(der);
    if certificate.None? {
      return None;
    }
    var tbs := Split(certificate.value.content);
    if tbs.None? {
      return None;
    }
    var rest := tbs.value.content;
    var first := Split(rest);
    if first.None? {
      return None;
    }
    if first.value.tag == 0xa0 {
      rest := first.value.rest;
    }
    ghost var fields := rest;
    for i := 0 to 3
      invariant Skip(fields, 3) == Skip(rest, 3 - i)
    {
      var e := Split(rest);
      if e.None? {
        return None;
      }
      rest := e.value.rest;
    }
    var validity := Split(rest);
    if validity.None? {
      return None;
    }
    var notBefore := Split(validity.value.content);
    if notBefore.None? {
      return None;
    }
    assert Skip(validity.value.content, 1) == Some(notBefore.value.rest);
    var notAfter := Split(notBefore.value.rest);
    if notAfter.None? {
      return None;
    }
    expires := TimeOf(notAfter.value.tag, notAfter.value.content);
  }

  // ----- A certificate, laid out by section 4.1 of RFC 5280 -----

  /** A time as section 4.1.2.5 writes it. */
  datatype Time = Time(tag: Byte, text: seq<Byte>)

  datatype Parts = Parts(version: Option<seq<Byte>>, serial: seq<Byte>, algorithm: seq<Byte>, issuer: seq<Byte>,
                         notBefore: Time, notAfter: Time, others: seq<Byte>, signature: seq<Byte>)

  function Validity(c: Parts): seq<Byte>
    requires |c.notBefore.text| < U32 && |c.notAfter.text| < U32
  {
    Encode(c.notBefore.tag, c.notBefore.text) + Encode(c.notAfter.tag, c.notAfter.text)
  }

  function Fields(c: Parts): seq<Byte>
    requires |c.notBefore.text| < U32 && |c.notAfter.text| < U32 && |Validity(c)| < U32
    requires |c.serial| < U32 && |c.algorithm| < U32 && |c.issuer| < U32
  {
    Encode(0x02, c.serial) + (Encode(0x30, c.algorithm) + (Encode(0x30, c.issuer) + (Encode(0x30, Validity(c)) + c.others)))
  }

  ghost predicate Encodable(c: Parts) {
    && |c.notBefore.text| < U32 && |c.notAfter.text| < U32 && |Validity(c)| < U32
    && |c.serial| < U32 && |c.algorithm| < U32 && |c.issuer| < U32
    && (c.version.Some? ==> |c.version.value| < U32)
    && |Tbs(c)| < U32 && |Encode(0x30, Tbs(c)) + c.signature| < U32
  }

  ghost function Tbs(c: Parts): seq<Byte>
    requires |c.notBefore.text| < U32 && |c.notAfter.text| < U32 && |Validity(c)| < U32
    requires |c.serial| < U32 && |c.algorithm| < U32 && |c.issuer| < U32
    requires c.version.Some? ==> |c.version.value| < U32
  {
    (if c.version.Some? then Encode(0xa0, c.version.value) else []) + Fields(c)
  }

  ghost function CertificateOf(c: Parts): seq<Byte>
    requires Encodable(c)
  {
    Encode(0x30, Encode(0x30, Tbs(c)) + c.signature)
  }

  lemma SplitEncoded(tag: Byte, content: seq<Byte>, rest: seq<Byte>)
    requires |content| < U32
    ensures Split(Encode(tag, content) + rest) == Some(Element(tag, content, rest))
    ensures Split(Encode(tag, content)) == Some(Element(tag, content, []))
  {
    DerLengthIsLength(|content|);
    SplitUndoesEncoding(tag, DerLength(|content|), content, rest);
    SplitUndoesEncoding(tag, DerLength(|content|), content, []);
    assert Encode(tag, content) + [] == Encode(tag, content);
  }

  lemma SkipEncoded(tag: Byte, content: seq<Byte>, rest: seq<Byte>, n: nat)
    requires |content| < U32
    ensures Skip(Encode(tag, content) + rest, n + 1) == Skip(rest, n)
  {
    SplitEncoded(tag, content, rest);
  }

  lemma FieldsSkipped(c: Parts)
    requires Encodable(c)
    ensures Skip(Fields(c), 3) == Some(Encode(0x30, Validity(c)) + c.others)
    ensures Content(Encode(0x30, Validity(c)) + c.others) == Some(Validity(c))
    ensures Split(Fields(c)).Some? && Split(Fields(c)).value.tag == 0x02
  {
    var a := Encode(0x30, Validity(c)) + c.others;
    var b := Encode(0x30, c.issuer) + a;
    var d := Encode(0x30, c.algorithm) + b;
    SkipEncoded(0x02, c.serial, d, 2);
    SkipEncoded(0x30, c.algorithm, b, 1);
    SkipEncoded(0x30, c.issuer, a, 0);
    SplitEncoded(0x02, c.serial, d);
    SplitEncoded(0x30, Validity(c), c.others);
  }

  lemma ValidityEnds(c: Parts)
    requires Encodable(c)
    ensures Skip(Validity(c), 1) == Some(Encode(c.notAfter.tag, c.notAfter.text))
    ensures Split(Encode(c.notAfter.tag, c.notAfter.text)) == Some(Element(c.notAfter.tag, c.notAfter.text, []))
  {
    SkipEncoded(c.notBefore.tag, c.notBefore.text, Encode(c.notAfter.tag, c.notAfter.text), 0);
    SplitEncoded(c.notAfter.tag, c.notAfter.text, []);
  }

  /** Past the version, if there is one, begin the fields. */
  lemma VersionPassed(c: Parts)
    requires Encodable(c)
    ensures Split(Tbs(c)).Some?
    ensures (if Split(Tbs(c)).value.tag == 0xa0 then Split(Tbs(c)).value.rest else Tbs(c)) == Fields(c)
  {
    FieldsSkipped(c);
    if c.version.Some? {
      SplitEncoded(0xa0, c.version.value, Fields(c));
    } else {
      assert Tbs(c) == Fields(c);
    }
  }

  /** The walk ends at the second time of the validity, with the version field or without. */
  lemma WalkFindsNotAfter(c: Parts, trailing: seq<Byte>)
    requires Encodable(c)
    ensures ExpiryElement(CertificateOf(c) + trailing) == Some(Element(c.notAfter.tag, c.notAfter.text, []))
  {
    SplitEncoded(0x30, Encode(0x30, Tbs(c)) + c.signature, trailing);
    SplitEncoded(0x30, Tbs(c), c.signature);
    VersionPassed(c);
    FieldsSkipped(c);
    ValidityEnds(c);
  }

  // ----- Times read back -----

  /** Can be written with four digits and two for the rest, there or not. */
  predicate InDigits(t: Instant) {
    && t.date.year < 10000 && t.date.month < 100 && t.date.day < 100
    && t.hour < 100 && t.minute < 100 && t.second < 100
  }

  /** The instant in seconds, or nothing for one that is not there. */
  function Ending(t: Instant): (end: Option<int>)
    ensures end.Some? <==>
              && 1 <= t.date.month <= 12 && t.date.year <= 9999
              && 1 <= t.date.day <= MONTHS[t.date.month - 1] + (if t.date.month == 2 && Leap(t.date.year) then 1 else 0)
              && t.hour <= 23 && t.minute <= 59 && t.second <= 59
  {
    if ValidInstant(t) then Some(Seconds(t)) else None
  }

  /** UTCTime: two digits of the year (section 4.1.2.5.1). */
  function UtcTime(t: Instant): seq<Byte>
    requires InDigits(t)
  {
    TwoDigits(t.date.year % 100) + Rest(t)
  }

  /** GeneralizedTime: all four (section 4.1.2.5.2). */
  function GeneralizedTime(t: Instant): seq<Byte>
    requires InDigits(t)
  {
    FourDigits(t.date.year) + Rest(t)
  }

  const ZULU: Byte := 90

  function Rest(t: Instant): (s: seq<Byte>)
    requires InDigits(t)
    ensures |s| == 11
  {
    TwoDigits(t.date.month) + TwoDigits(t.date.day) + TwoDigits(t.hour) + TwoDigits(t.minute) + TwoDigits(t.second) + [ZULU]
  }

  lemma RestPieces(t: Instant)
    requires InDigits(t)
    ensures Rest(t)[0..2] == TwoDigits(t.date.month) && Rest(t)[2..4] == TwoDigits(t.date.day)
    ensures Rest(t)[4..6] == TwoDigits(t.hour) && Rest(t)[6..8] == TwoDigits(t.minute) && Rest(t)[8..10] == TwoDigits(t.second)
    ensures Ascii(Rest(t))
  {
  }

  ghost predicate Ascii(s: seq<Byte>) {
    forall i | 0 <= i < |s| :: s[i] < 0x80
  }

  lemma {:induction false} AsciiIsUtf8(s: seq<Byte>)
    requires Ascii(s)
    ensures Utf8(s)
  {
    if s != [] {
      AsciiIsUtf8(s[1..]);
    }
  }

  lemma TwoDigitsRead(n: nat)
    requires n < 100
    ensures Digits(TwoDigits(n)) && Value(TwoDigits(n)) == n && Unsigned(TwoDigits(n)) == Signed(TwoDigits(n)) == Some(n)
  {
    var s := TwoDigits(n);
    assert Value(s[..1]) == n / 10 by {
      assert s[..1][..0] == [];
    }
  }

  lemma FourDigitsRead(n: nat)
    requires n < 10000
    ensures Unsigned(FourDigits(n)) == Some(n)
  {
    var s := FourDigits(n);
    var a, b := TwoDigits(n / 100), TwoDigits(n % 100);
    TwoDigitsRead(n / 100);
    assert s[..3][..2] == a && s[..3] == a + [b[0]];
    assert Value(s) == (Value(a) * 10 + n % 100 / 10) * 10 + n % 10;
  }

  lemma PieceRead(year: seq<Byte>, rest: seq<Byte>, at: nat, n: nat)
    requires |year| == 4 && Ascii(year) && Ascii(rest) && at + 2 <= |rest| && n < 100 && rest[at..at + 2] == TwoDigits(n)
    ensures Number(year + rest, 4 + at, 6 + at) == Some(n)
  {
    TwoDigitsRead(n);
    assert (year + rest)[4 + at..6 + at] == rest[at..at + 2];
  }

  lemma YearRead(year: seq<Byte>, rest: seq<Byte>, n: nat)
    requires n < 10000 && year == FourDigits(n) && Ascii(rest)
    ensures Number(year + rest, 0, 4) == Some(n)
  {
    FourDigitsRead(n);
    assert (year + rest)[0..4] == year;
  }

  /** `full` reads as the year, month, day, hour, minute and second of `t`. */
  ghost predicate ReadsAs(full: seq<Byte>, t: Instant) {
    && Number(full, 0, 4) == Some(t.date.year) && Number(full, 4, 6) == Some(t.date.month)
    && Number(full, 6, 8) == Some(t.date.day) && Number(full, 8, 10) == Some(t.hour)
    && Number(full, 10, 12) == Some(t.minute) && Number(full, 12, 14) == Some(t.second)
  }

  lemma DateRead(year: seq<Byte>, rest: seq<Byte>, t: Instant)
    requires InDigits(t) && year == FourDigits(t.date.year) && rest == Rest(t)
    ensures Number(year + rest, 0, 4) == Some(t.date.year) && Number(year + rest, 4, 6) == Some(t.date.month)
    ensures Number(year + rest, 6, 8) == Some(t.date.day)
  {
    RestPieces(t);
    YearRead(year, rest, t.date.year);
    PieceRead(year, rest, 0, t.date.month);
    PieceRead(year, rest, 2, t.date.day);
  }

  lemma TimeRead(year: seq<Byte>, rest: seq<Byte>, t: Instant)
    requires InDigits(t) && year == FourDigits(t.date.year) && rest == Rest(t)
    ensures Number(year + rest, 8, 10) == Some(t.hour) && Number(year + rest, 10, 12) == Some(t.minute)
    ensures Number(year + rest, 12, 14) == Some(t.second)
  {
    RestPieces(t);
    PieceRead(year, rest, 4, t.hour);
    PieceRead(year, rest, 6, t.minute);
    PieceRead(year, rest, 8, t.second);
  }

  lemma PiecesRead(year: seq<Byte>, rest: seq<Byte>, t: Instant)
    requires InDigits(t) && year == FourDigits(t.date.year) && rest == Rest(t)
    ensures ReadsAs(year + rest, t)
  {
    DateRead(year, rest, t);
    TimeRead(year, rest, t);
  }

  lemma ReadTime(tag: Byte, text: seq<Byte>, full: seq<Byte>, t: Instant)
    requires InDigits(t) && Ascii(text) && FullTime(tag, text) == Some(full) && ReadsAs(full, t)
    ensures TimeOf(tag, text) == Ending(t)
  {
    AsciiIsUtf8(text);
  }

  lemma GeneralizedTimeRead(t: Instant)
    requires InDigits(t)
    ensures TimeOf(0x18, GeneralizedTime(t)) == Ending(t)
  {
    RestPieces(t);
    PiecesRead(FourDigits(t.date.year), Rest(t), t);
    ReadTime(0x18, GeneralizedTime(t), GeneralizedTime(t), t);
  }

  lemma CenturyOf(year: nat)
    requires 1950 <= year <= 2049
    ensures year == year % 100 + if year % 100 >= 50 then 1900 else 2000
  {
  }

  lemma YearInFront(two: seq<Byte>, n: nat, rest: seq<Byte>)
    requires n < 100 && two == TwoDigits(n) && Ascii(rest) && rest != []
    ensures Get(two + rest, 0, 2).Some? && Signed(Get(two + rest, 0, 2).value) == Some(n)
  {
    TwoDigitsRead(n);
    assert (two + rest)[0..2] == two;
  }

  lemma CenturyAdded(two: seq<Byte>, year: nat, rest: seq<Byte>)
    requires 1950 <= year <= 2049 && two == TwoDigits(year % 100) && Ascii(rest) && rest != []
    ensures FullTime(0x17, two + rest) == Some(FourDigits(year) + rest)
  {
    YearInFront(two, year % 100, rest);
    CenturyOf(year);
    assert (two + rest)[2..] == rest;
  }

  /** The pivot: two digits from 50 on are of the last century, below it of this one. */
  lemma UtcTimeRead(t: Instant)
    requires InDigits(t) && 1950 <= t.date.year <= 2049
    ensures TimeOf(0x17, UtcTime(t)) == Ending(t)
  {
    var two, four, rest := TwoDigits(t.date.year % 100), FourDigits(t.date.year), Rest(t);
    assert Ascii(two + rest) && FullTime(0x17, two + rest) == Some(four + rest) by {
      RestPieces(t);
      CenturyAdded(two, t.date.year, rest);
    }
    assert ReadsAs(four + rest, t) by {
      PiecesRead(four, rest, t);
    }
    ReadTime(0x17, two + rest, four + rest, t);
  }

  /** Of what is tagged otherwise, or too short for all six numbers, nothing is read. */
  lemma OnlyTimesAreRead(tag: Byte, text: seq<Byte>)
    ensures TimeOf(tag, text).Some? ==> (tag == 0x17 && |text| >= 12) || (tag == 0x18 && |text| >= 14)
  {
  }

  /**
   Of any certificate laid out by RFC 5280, with or without its version field and whatever follows
   it, exactly the end of its validity is read, and nothing if that is no time there is.
   */
  lemma NotAfterReadBack(c: Parts, trailing: seq<Byte>, t: Instant)
    requires Encodable(c) && InDigits(t)
    requires c.notAfter == (if 1950 <= t.date.year <= 2049 then Time(0x17, UtcTime(t)) else Time(0x18, GeneralizedTime(t)))
    ensures ExpiryElement(CertificateOf(c) + trailing).Some?
    ensures var e := ExpiryElement(CertificateOf(c) + trailing).value; TimeOf(e.tag, e.content) == Ending(t)
  {
    WalkFindsNotAfter(c, trailing);
    if 1950 <= t.date.year <= 2049 {
      UtcTimeRead(t);
    } else {
      GeneralizedTimeRead(t);
    }
  }
}
