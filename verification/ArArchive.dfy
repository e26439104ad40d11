/**
 The `ar` container of a Debian package: the writer `append_ar_member` with the framing of `build_deb`,
 and the reader `parse_ar` (crates/foims-agent-service/src/packaging.rs).
 */
module ArArchive {
  import opened Wrappers

  type Byte = b: int | 0 <= b < 256

  datatype Member = Member(name: string, data: seq<Byte>)

  datatype WriteError = NameTooLong | BadHeaderLength

  datatype ReadError = BadMagic | HeaderTruncated | BadSize | SizeOverflow | DataTruncated

  const MAGIC: seq<Byte> := [0x21, 0x3C, 0x61, 0x72, 0x63, 0x68, 0x3E, 0x0A]
  const HEADER_LENGTH := 60
  const NEWLINE: Byte := 0x0A
  const USIZE_LIMIT := 0x1_0000_0000_0000_0000
  const SIZE_LIMIT := 10_000_000_000

  // ---- Text ----

  predicate IsAscii(s: string) {
    forall i | 0 <= i < |s| :: s[i] as int < 0x80
  }

  function Utf8Width(c: char): nat {
    var code := c as int;
    if code < 0x80 then 1 else if code < 0x800 then 2 else if code < 0x1_0000 then 3 else 4
  }

  /** The number of bytes a text takes. */
  function Utf8Length(s: string): nat {
    if s == "" then 0 else Utf8Length(s[..|s| - 1]) + Utf8Width(s[|s| - 1])
  }

  function Bytes(s: string): seq<Byte>
    requires IsAscii(s)
  {
    seq(|s|, i requires 0 <= i < |s| => s[i] as int)
  }

  // Decoding as `String::from_utf8_lossy` does.

  const REPLACEMENT: char := '\U{FFFD}'

  /** A decoded character and the number of bytes it stands for. */
  datatype Piece = Piece(c: char, width: nat)

  function ByteAt(bytes: seq<Byte>, i: nat): Byte {
    if i < |bytes| then bytes[i] else 0
  }

  predicate Continues(b: Byte) {
    0x80 <= b < 0xC0
  }

  /** Whether the second byte may follow the first; it excludes overlong forms, surrogates and what is too large. */
  predicate MayFollow(first: Byte, second: Byte) {
    && Continues(second)
    && (first == 0xE0 ==> second >= 0xA0) && (first == 0xED ==> second < 0xA0)
    && (first == 0xF0 ==> second >= 0x90) && (first == 0xF4 ==> second < 0x90)
  }

  /** The first character; the longest beginning of one that is cut short or goes wrong becomes U+FFFD. */
  function FirstPiece(bytes: seq<Byte>): (p: Piece)
    requires bytes != []
    ensures 1 <= p.width <= |bytes|
  {
    var first, second, third, fourth := bytes[0], ByteAt(bytes, 1), ByteAt(bytes, 2), ByteAt(bytes, 3);
    if first < 0x80 then Piece(first as char, 1)
    else if first < 0xC2 || first >= 0xF5 || !MayFollow(first, second) then Piece(REPLACEMENT, 1)
    else if first < 0xE0 then Piece(((first - 0xC0) * 0x40 + (second - 0x80)) as char, 2)
    else if !Continues(third) then Piece(REPLACEMENT, 2)
    else if first < 0xF0 then Piece(((first - 0xE0) * 0x1000 + (second - 0x80) * 0x40 + (third - 0x80)) as char, 3)
    else if !Continues(fourth) then Piece(REPLACEMENT, 3)
    else
      Piece(((first - 0xF0) * 0x4_0000 + (second - 0x80) * 0x1000 + (third - 0x80) * 0x40 + (fourth - 0x80)) as char, 4)
  }

  function Text(bytes: seq<Byte>): string {
    if bytes == [] then ""
    else
      var p := FirstPiece(bytes);
      [p.c] + Text(bytes[p.width..])
  }

  /** The bytes of a character. */
  function Encoded(c: char): (bytes: seq<Byte>)
    ensures |bytes| == Utf8Width(c)
  {
    var code := c as int;
    if code < 0x80 then [code]
    else if code < 0x800 then [0xC0 + code / 0x40, 0x80 + code % 0x40]
    else if code < 0x1_0000 then [0xE0 + code / 0x1000, 0x80 + code / 0x40 % 0x40, 0x80 + code % 0x40]
    else [0xF0 + code / 0x4_0000, 0x80 + code / 0x1000 % 0x40, 0x80 + code / 0x40 % 0x40, 0x80 + code % 0x40]
  }

  function Utf8(s: string): seq<Byte> {
    if s == "" then [] else Encoded(s[0]) + Utf8(s[1..])
  }

  lemma FirstOfFour(c: char, rest: seq<Byte>)
    requires c as int >= 0x1_0000
    ensures FirstPiece(Encoded(c) + rest) == Piece(c, 4)
  {
    var code := c as int;
    assert code == code / 0x40 * 0x40 + code % 0x40;
    assert code / 0x40 == code / 0x1000 * 0x40 + code / 0x40 % 0x40;
    assert code / 0x1000 == code / 0x4_0000 * 0x40 + code / 0x1000 % 0x40;
  }

  lemma FirstOfEncoded(c: char, rest: seq<Byte>)
    ensures FirstPiece(Encoded(c) + rest) == Piece(c, Utf8Width(c))
  {
    var code := c as int;
    if code >= 0x1_0000 {
      FirstOfFour(c, rest);
    } else if code >= 0x80 {
      assert code == code / 0x40 * 0x40 + code % 0x40;
      assert code / 0x40 == code / 0x1000 * 0x40 + code / 0x40 % 0x40;
    }
  }

  /** Decoding undoes encoding for every text, so that only bytes that are no UTF-8 are replaced. */
  lemma {:induction false} DecodesUtf8(s: string)
    ensures Text(Utf8(s)) == s
  {
    if s == "" {
    } else {
      FirstOfEncoded(s[0], Utf8(s[1..]));
      DecodesUtf8(s[1..]);
      assert (Encoded(s[0]) + Utf8(s[1..]))[Utf8Width(s[0])..] == Utf8(s[1..]);
    }
  }

  lemma DecodedTwo(a: Byte, b: Byte)
    requires 0xC2 <= a < 0xE0 && Continues(b)
    ensures Encoded(((a - 0xC0) * 0x40 + (b - 0x80)) as char) == [a, b]
  {
  }

  lemma DecodedThree(a: Byte, b: Byte, c: Byte)
    requires 0xE0 <= a < 0xF0 && MayFollow(a, b) && Continues(c)
    ensures Encoded(((a - 0xE0) * 0x1000 + (b - 0x80) * 0x40 + (c - 0x80)) as char) == [a, b, c]
  {
    var code := (a - 0xE0) * 0x1000 + (b - 0x80) * 0x40 + (c - 0x80);
    assert code / 0x40 == (a - 0xE0) * 0x40 + (b - 0x80);
  }

  lemma DecodedFour(a: Byte, b: Byte, c: Byte, d: Byte)
    requires 0xF0 <= a < 0xF5 && MayFollow(a, b) && Continues(c) && Continues(d)
    ensures Encoded(((a - 0xF0) * 0x4_0000 + (b - 0x80) * 0x1000 + (c - 0x80) * 0x40 + (d - 0x80)) as char)
         == [a, b, c, d]
  {
    var code := (a - 0xF0) * 0x4_0000 + (b - 0x80) * 0x1000 + (c - 0x80) * 0x40 + (d - 0x80);
    assert code / 0x40 == (a - 0xF0) * 0x1000 + (b - 0x80) * 0x40 + (c - 0x80);
    assert code / 0x1000 == (a - 0xF0) * 0x40 + (b - 0x80);
  }

  lemma EncodedIsFirst(bytes: seq<Byte>, c: char)
    requires Encoded(c) <= bytes
    ensures bytes != [] && FirstPiece(bytes) == Piece(c, Utf8Width(c))
  {
    hide FirstPiece;
    FirstOfEncoded(c, bytes[Utf8Width(c)..]);
    assert Encoded(c) + bytes[Utf8Width(c)..] == bytes;
  }

  /** What is decoded is the character whose bytes come first; U+FFFD replaces bytes only if they begin none. */
  lemma DecodesFirst(bytes: seq<Byte>, c: char)
    requires bytes != []
    ensures var p := FirstPiece(bytes);
            && (Encoded(c) <= bytes ==> p == Piece(c, Utf8Width(c)))
            && (bytes[..p.width] == Encoded(p.c) || p.c == '\U{FFFD}')
  {
    if Encoded(c) <= bytes {
      EncodedIsFirst(bytes, c);
    }
    var p, a := FirstPiece(bytes), bytes[0];
    if p.c != REPLACEMENT {
      if p.width == 2 {
        DecodedTwo(a, bytes[1]);
      } else if p.width == 3 {
        DecodedThree(a, bytes[1], bytes[2]);
      } else if p.width == 4 {
        DecodedFour(a, bytes[1], bytes[2], bytes[3]);
      }
    }
  }

  lemma ThreeIsDecoded(bytes: seq<Byte>)
    requires bytes != [] && FirstPiece(bytes).width == 3 && bytes[0] < 0xF0
    ensures Encoded(FirstPiece(bytes).c) <= bytes
  {
    DecodedThree(bytes[0], bytes[1], bytes[2]);
  }

  /** What is replaced begins some character, or is a single byte. */
  lemma ReplacedBegins(bytes: seq<Byte>) returns (begun: char)
    requires bytes != [] && FirstPiece(bytes).c == '\U{FFFD}' && !(Encoded('\U{FFFD}') <= bytes)
    ensures var w := FirstPiece(bytes).width; w > 1 ==> bytes[..w] <= Encoded(begun)
  {
    var w, a: int, b: int := FirstPiece(bytes).width, bytes[0], ByteAt(bytes, 1);
    begun := ' ';
    if w == 3 {
      if a < 0xF0 {
        ThreeIsDecoded(bytes);
      } else {
        DecodedFour(a, b, bytes[2], 0x80);
        begun := ((a - 0xF0) * 0x4_0000 + (b - 0x80) * 0x1000 + (bytes[2] as int - 0x80) * 0x40) as char;
      }
    } else if w == 2 {
      if 0xE0 <= a < 0xF0 {
        DecodedThree(a, b, 0x80);
        begun := ((a - 0xE0) * 0x1000 + (b - 0x80) * 0x40) as char;
      } else if a >= 0xF0 {
        DecodedFour(a, b, 0x80, 0x80);
        begun := ((a - 0xF0) * 0x4_0000 + (b - 0x80) * 0x1000) as char;
      }
    }
  }

  /** And it is the longest part that does: with one byte more it begins no character. */
  lemma ReplacedIsLongest(bytes: seq<Byte>, c: char)
    requires bytes != [] && FirstPiece(bytes).c == '\U{FFFD}' && !(Encoded('\U{FFFD}') <= bytes)
    requires FirstPiece(bytes).width < |bytes|
    ensures !(bytes[..FirstPiece(bytes).width + 1] <= Encoded(c))
  {
    var w, e := FirstPiece(bytes).width, Encoded(c);
    FirstOfEncoded(c, []);
    assert e + [] == e;
    if bytes[..w + 1] <= e {
      assert forall i | 0 <= i <= w :: e[i] == bytes[i];
      DecodesFirst(bytes, c);
    }
  }

  function Spaces(n: nat): string {
    seq(n, _ => ' ')
  }

  /** Padded on the right with spaces, counting characters; never cut. */
  function Padded(s: string, width: nat): string {
    s + Spaces(if |s| < width then width - |s| else 0)
  }

  function Digit(d: nat): char
    requires d < 10
  {
    ('0' as int + d) as char
  }

  function Digits(n: nat): string {
    if n < 10 then [Digit(n)] else Digits(n / 10) + [Digit(n % 10)]
  }

  // ---- The writer ----

  /** Modification time, owner, group and mode; the same for every member. */
  const OWNERSHIP := Padded("0", 12) + Padded("0", 6) + Padded("0", 6) + Padded("100644", 8)

  function Header(name: string, size: nat): string {
    Padded(name + "/", 16) + OWNERSHIP + Padded(Digits(size), 10) + "`\n"
  }

  function Failure(name: string, size: nat): Option<WriteError> {
    if Utf8Length(name) + 1 > 16 then Some(NameTooLong)
    else if Utf8Length(Header(name, size)) != HEADER_LENGTH then Some(BadHeaderLength)
    else None
  }

  predicate Storable(name: string, size: nat) {
    IsAscii(name) && |name| <= 15 && size < SIZE_LIMIT
  }

  function Padding(size: nat): seq<Byte> {
    if size % 2 == 1 then [NEWLINE] else []
  }

  lemma {:induction false} Utf8LengthConcat(a: string, b: string)
    ensures Utf8Length(a + b) == Utf8Length(a) + Utf8Length(b)
  {
    if b == "" {
      assert a + b == a;
    } else {
      Utf8LengthConcat(a, b[..|b| - 1]);
      assert (a + b)[..|a + b| - 1] == a + b[..|b| - 1];
    }
  }

  lemma {:induction false} Utf8LengthOfAscii(s: string)
    ensures Utf8Length(s) >= |s|
    ensures Utf8Length(s) == |s| <==> IsAscii(s)
  {
    if s == "" {
    } else {
      var init := s[..|s| - 1];
      Utf8LengthOfAscii(init);
      assert IsAscii(s) <==> IsAscii(init) && s[|s| - 1] as int < 0x80;
    }
  }

  lemma {:induction false} DigitsAreAscii(n: nat)
    ensures IsAscii(Digits(n)) && |Digits(n)| > 0
    ensures forall i | 0 <= i < |Digits(n)| :: '0' <= Digits(n)[i] <= '9'
  {
    if n >= 10 {
      DigitsAreAscii(n / 10);
    }
  }

  function Pow10(k: nat): nat {
    if k == 0 then 1 else 10 * Pow10(k - 1)
  }

  lemma {:induction false} DigitsFit(n: nat, k: nat)
    requires k > 0
    ensures |Digits(n)| <= k <==> n < Pow10(k)
  {
    if k == 1 {
      assert Pow10(1) == 10;
      if n >= 10 {
        DigitsAreAscii(n / 10);
      }
    } else if n < 10 {
      PowGrows(k);
    } else {
      DigitsFit(n / 10, k - 1);
      assert n / 10 < Pow10(k - 1) <==> n < 10 * Pow10(k - 1);
    }
  }

  lemma {:induction false} PowGrows(k: nat)
    requires k > 0
    ensures Pow10(k) >= 10
  {
    if k > 1 {
      PowGrows(k - 1);
    }
  }

  lemma SizeFits(size: nat)
    ensures |Digits(size)| <= 10 <==> size < SIZE_LIMIT
  {
    DigitsFit(size, 10);
    assert Pow10(5) == 100_000;
    assert Pow10(10) == SIZE_LIMIT;
  }

  /** The three variable parts of a header. */
  lemma HeaderParts(name: string, size: nat)
    ensures var h := Header(name, size);
            && |h| == (if |name| + 1 < 16 then 16 else |name| + 1) + 32
                      + (if |Digits(size)| < 10 then 10 else |Digits(size)|) + 2
            && (IsAscii(h) <==> IsAscii(name))
  {
    DigitsAreAscii(size);
    var h, n, d := Header(name, size), Padded(name + "/", 16), Padded(Digits(size), 10);
    assert |OWNERSHIP| == 32 && IsAscii(OWNERSHIP);
    assert h == n + OWNERSHIP + d + "`\n";
    assert IsAscii(n) <==> IsAscii(name) by {
      assert forall i | 0 <= i < |name| :: n[i] == name[i];
    }
    assert IsAscii(d);
    assert forall i | 0 <= i < |n| :: h[i] == n[i];
  }

  /** A member is written exactly when its name is ASCII, has at most 15 characters, and its size ten digits. */
  lemma WritesIffStorable(name: string, size: nat)
    ensures Failure(name, size) == None <==> Storable(name, size)
    ensures Failure(name, size) == None ==> IsAscii(Header(name, size)) && |Header(name, size)| == HEADER_LENGTH
  {
    HeaderParts(name, size);
    SizeFits(size);
    Utf8LengthOfAscii(name);
    Utf8LengthOfAscii(Header(name, size));
  }

  lemma PaddedIs(s: string, width: nat)
    requires |s| <= width
    ensures |Padded(s, width)| == width && Padded(s, width)[..|s|] == s
    ensures forall i | |s| <= i < width :: Padded(s, width)[i] == ' '
  {
  }

  lemma HeaderSlices(name: string, size: nat)
    requires Storable(name, size)
    ensures var h := Header(name, size);
            && |h| == 60 && h[..16] == Padded(name + "/", 16) && h[16..48] == OWNERSHIP
            && h[48..58] == Padded(Digits(size), 10) && h[58..] == "`\n"
  {
    hide Digits;
    SizeFits(size);
    PaddedIs(name + "/", 16);
    PaddedIs(Digits(size), 10);
    var h, n, d := Header(name, size), Padded(name + "/", 16), Padded(Digits(size), 10);
    assert |OWNERSHIP| == 32;
    assert h == n + OWNERSHIP + d + "`\n";
  }

  lemma OwnershipIs()
    ensures OWNERSHIP == "0           " + "0     " + "0     " + "100644  "
  {
  }

  /** The 60 characters of a header: name, time, owner, group and mode, size, end mark. */
  lemma HeaderLayout(name: string, size: nat)
    requires Storable(name, size)
    ensures var h, digits := Header(name, size), Digits(size);
            && |h| == 60 && |digits| <= 10
            && h[..16][..|name| + 1] == name + "/" && (forall i | |name| + 1 <= i < 16 :: h[..16][i] == ' ')
            && h[16..48] == "0           " + "0     " + "0     " + "100644  "
            && h[48..58][..|digits|] == digits && (forall i | |digits| <= i < 10 :: h[48..58][i] == ' ')
            && h[58..] == "`\n"
  {
    hide Digits, Header, Padded;
    SizeFits(size);
    HeaderSlices(name, size);
    OwnershipIs();
    PaddedIs(name + "/", 16);
    PaddedIs(Digits(size), 10);
  }

  lemma FixedTexts()
    ensures MAGIC == Bytes("!<arch>\n")
    ensures [0x32, 0x2E, 0x30, 0x0A] == Bytes("2.0\n")
  {
  }

  type StorableMember = m: Member | Storable(m.name, |m.data|) witness Member("", [])

  /** Header, data and, after an odd number of bytes, a newline. */
  function MemberBytes(m: StorableMember): (bytes: seq<Byte>)
    ensures |bytes| == HEADER_LENGTH + |m.data| + |m.data| % 2 && |bytes| % 2 == 0
  {
    WritesIffStorable(m.name, |m.data|);
    Bytes(Header(m.name, |m.data|)) + m.data + Padding(|m.data|)
  }

  class ArBuffer {
    var bytes: seq<Byte>

    constructor ()
      ensures bytes == MAGIC
    {
      bytes := MAGIC;
    }

    /** Appends a whole member or, with an error, nothing. */
    method AppendMember(name: string, data: seq<Byte>) returns (r: Result<(), WriteError>)
      modifies this
      ensures r.Ok? <==> Storable(name, |data|)
      ensures r.Ok? ==> bytes == old(bytes) + MemberBytes(Member(name, data))
      ensures r.Ok? ==>
                && IsAscii(Header(name, |data|))
                && bytes == old(bytes) + Bytes(Header(name, |data|)) + data + if |data| % 2 == 1 then [0x0A] else []
      ensures r.Err? ==> bytes == old(bytes) && Failure(name, |data|) == Some(r.error)
    {
      WritesIffStorable(name, |data|);
      if Utf8Length(name) + 1 > 16 {
        return Err(NameTooLong);
      }
      var header := Padded(name + "/", 16);
      header := header + OWNERSHIP;
      header := header + Padded(Digits(|data|), 10);
      header := header + "`\n";
      if Utf8Length(header) != HEADER_LENGTH {
        return Err(BadHeaderLength);
      }
      bytes := bytes + Bytes(header);
      bytes := bytes + data;
      if |data| % 2 == 1 {
        bytes := bytes + [NEWLINE];
      }
      r := Ok(());
    }
  }

  /** The members one after the other, as they are written. */
  function Body(members: seq<StorableMember>): seq<Byte> {
    if members == [] then [] else MemberBytes(members[0]) + Body(members[1..])
  }

  lemma {:induction false} BodyIsEven(members: seq<StorableMember>)
    ensures |Body(members)| % 2 == 0
  {
    hide MemberBytes;
    if members == [] {
    } else {
      BodyIsEven(members[1..]);
    }
  }

  lemma BodyOfThree(a: StorableMember, b: StorableMember, c: StorableMember)
    ensures Body([a, b, c]) == MemberBytes(a) + MemberBytes(b) + MemberBytes(c)
  {
    assert [a, b, c][1..] == [b, c] && [b, c][1..] == [c];
    assert Body([c]) == MemberBytes(c) + [];
    Regroup(MemberBytes(a), MemberBytes(b), MemberBytes(c));
  }

  /** A compressed archive small enough for the ten digits of a size. */
  type Archive = data: seq<Byte> | |data| < SIZE_LIMIT

  /** The members of a Debian package; how the two archives are packed is not modelled. */
  function DebMembers(controlGz: Archive, dataGz: Archive): seq<StorableMember> {
    [Member("debian-binary", [0x32, 0x2E, 0x30, 0x0A]), Member("control.tar.gz", controlGz),
     Member("data.tar.gz", dataGz)]
  }

  method BuildDeb(controlGz: seq<Byte>, dataGz: seq<Byte>) returns (r: Result<(), WriteError>, deb: seq<Byte>)
    ensures r.Ok? <==> |controlGz| < SIZE_LIMIT && |dataGz| < SIZE_LIMIT
    ensures r.Ok? ==> deb == MAGIC + Body(DebMembers(controlGz, dataGz))
  {
    deb := [];
    var out := new ArBuffer();
    r := out.AppendMember("debian-binary", [0x32, 0x2E, 0x30, 0x0A]);
    if r.Err? {
      return;
    }
    r := out.AppendMember("control.tar.gz", controlGz);
    if r.Err? {
      return;
    }
    r := out.AppendMember("data.tar.gz", dataGz);
    if r.Err? {
      return;
    }
    var members := DebMembers(controlGz, dataGz);
    BodyOfThree(members[0], members[1], members[2]);
    Regroup(MAGIC, MemberBytes(members[0]), MemberBytes(members[1]));
    Regroup(MAGIC, MemberBytes(members[0]) + MemberBytes(members[1]), MemberBytes(members[2]));
    deb := out.bytes;
  }

  // ---- The reader ----

  /** Unicode property White_Space. */
  predicate IsSpace(c: char) {
    var code := c as int;
    || 0x09 <= code <= 0x0D || code == 0x20 || code == 0x85 || code == 0xA0 || code == 0x1680
    || 0x2000 <= code <= 0x200A || code == 0x2028 || code == 0x2029 || code == 0x202F || code == 0x205F
    || code == 0x3000
  }

  function TrimEnd(s: string): string {
    if s != "" && IsSpace(s[|s| - 1]) then TrimEnd(s[..|s| - 1]) else s
  }

  function TrimStart(s: string): string {
    if s != "" && IsSpace(s[0]) then TrimStart(s[1..]) else s
  }

  function WithoutSlashes(s: string): string {
    if s != "" && s[|s| - 1] == '/' then WithoutSlashes(s[..|s| - 1]) else s
  }

  predicate AllDigits(s: string) {
    forall i | 0 <= i < |s| :: '0' <= s[i] <= '9'
  }

  function Value(s: string): nat
    requires AllDigits(s)
  {
    if s == "" then 0 else 10 * Value(s[..|s| - 1]) + (s[|s| - 1] as int - '0' as int)
  }

  /** An unsigned 64-bit number in decimal, perhaps with a plus sign, perhaps between spaces. */
  function ParseSize(text: string): Option<nat> {
    var t := TrimStart(TrimEnd(text));
    var digits := if t != "" && t[0] == '+' then t[1..] else t;
    if digits != "" && AllDigits(digits) && Value(digits) < USIZE_LIMIT then Some(Value(digits)) else None
  }

  function NameIn(header: seq<Byte>): string
    requires |header| == HEADER_LENGTH
  {
    WithoutSlashes(TrimEnd(Text(header[..16])))
  }

  /** What reading gives when `members` come before what `r` reads. */
  function After(members: seq<Member>, r: Result<seq<Member>, ReadError>): Result<seq<Member>, ReadError> {
    if r.Ok? then Ok(members + r.value) else r
  }

  datatype Read = Read(m: Member, next: nat)

  /** The member at `offset` and where the next one is. */
  function ReadMember(archive: seq<Byte>, offset: nat): (r: Result<Read, ReadError>)
    ensures r.Ok? ==> offset < r.value.next
  {
    if |archive| < offset + HEADER_LENGTH then Err(HeaderTruncated)
    else
      var header, start := archive[offset..offset + HEADER_LENGTH], offset + HEADER_LENGTH;
      var size := ParseSize(Text(header[48..58]));
      if size.None? then Err(BadSize)
      else if start + size.value >= USIZE_LIMIT then Err(SizeOverflow)
      else if |archive| < start + size.value then Err(DataTruncated)
      else Ok(Read(Member(NameIn(header), archive[start..start + size.value]), start + size.value + size.value % 2))
  }

  /** What reading from `offset` on gives. */
  function Parsed(archive: seq<Byte>, offset: nat): Result<seq<Member>, ReadError>
    decreases |archive| - offset
  {
    if offset >= |archive| then Ok([])
    else
      match ReadMember(archive, offset)
      case Err(e) => Err(e)
      case Ok(read) => After([read.m], Parsed(archive, read.next))
  }

  method ParseAr(archive: seq<Byte>) returns (r: Result<seq<Member>, ReadError>)
    ensures r == if |archive| < 8 || archive[..8] != MAGIC then Err(BadMagic) else Parsed(archive, 8)
  {
    if |archive| < 8 || archive[..8] != MAGIC {
      return Err(BadMagic);
    }
    var offset := 8;
    var members: seq<Member> := [];
    AfterNothing(Parsed(archive, 8));
    while offset < |archive|
      invariant offset >= 8
      invariant Parsed(archive, 8) == After(members, Parsed(archive, offset))
      decreases |archive| - offset
    {
      match ReadMember(archive, offset) {
        case Err(e) => return Err(e);
        case Ok(read) =>
          AfterOne(members, read.m, Parsed(archive, read.next));
          members := members + [read.m];
          offset := read.next;
      }
    }
    assert members + [] == members;
    r := Ok(members);
  }

  lemma AfterNothing(r: Result<seq<Member>, ReadError>)
    ensures After([], r) == r
  {
    assert r.Ok? ==> [] + r.value == r.value;
  }

  lemma AfterOne(members: seq<Member>, m: Member, r: Result<seq<Member>, ReadError>)
    ensures After(members, After([m], r)) == After(members + [m], r)
  {
    if r.Ok? {
      assert members + ([m] + r.value) == members + [m] + r.value;
    }
  }

  // ---- Reading any bytes ----

  predicate AllSpaces(s: string) {
    forall i | 0 <= i < |s| :: IsSpace(s[i])
  }

  lemma {:induction false} TrimEndSplits(s: string)
    ensures TrimEnd(s) <= s && AllSpaces(s[|TrimEnd(s)|..])
    ensures TrimEnd(s) == "" || !IsSpace(TrimEnd(s)[|TrimEnd(s)| - 1])
  {
    hide IsSpace;
    if s != "" && IsSpace(s[|s| - 1]) {
      var init, n := s[..|s| - 1], |TrimEnd(s)|;
      TrimEndSplits(init);
      assert TrimEnd(s) == TrimEnd(init) && s[n..] == init[n..] + [s[|s| - 1]];
    } else {
      assert s[|s|..] == "";
    }
  }

  lemma {:induction false} TrimStartSplits(s: string)
    ensures |TrimStart(s)| <= |s| && s[|s| - |TrimStart(s)|..] == TrimStart(s)
    ensures AllSpaces(s[..|s| - |TrimStart(s)|])
  {
    hide IsSpace;
    if s != "" && IsSpace(s[0]) {
      var rest := s[1..];
      var k := |rest| - |TrimStart(rest)|;
      TrimStartSplits(rest);
      assert s[k + 1..] == rest[k..] && s[..k + 1] == [s[0]] + rest[..k];
    } else {
      assert s[..|s| - |TrimStart(s)|] == "";
    }
  }

  lemma {:induction false} TrimEndOf(s: string, after: string)
    requires AllSpaces(after) && (s == "" || !IsSpace(s[|s| - 1]))
    ensures TrimEnd(s + after) == s
    decreases |after|
  {
    if after == "" {
      assert s + after == s;
    } else {
      assert (s + after)[..|s + after| - 1] == s + after[..|after| - 1];
      TrimEndOf(s, after[..|after| - 1]);
    }
  }

  lemma {:induction false} TrimStartOf(before: string, s: string)
    requires AllSpaces(before) && (s == "" || !IsSpace(s[0]))
    ensures TrimStart(before + s) == s
    decreases |before|
  {
    if before == "" {
      assert before + s == s;
    } else {
      assert (before + s)[1..] == before[1..] + s;
      TrimStartOf(before[1..], s);
    }
  }

  /** The texts that are read as a size: decimal digits, perhaps after a plus sign, perhaps between spaces. */
  predicate IsSizeText(before: string, plus: string, digits: string, after: string) {
    && AllSpaces(before) && AllSpaces(after) && (plus == "" || plus == "+")
    && digits != "" && AllDigits(digits) && Value(digits) < 0x1_0000_0000_0000_0000
  }

  lemma SizeTextIsRead(before: string, plus: string, digits: string, after: string)
    requires IsSizeText(before, plus, digits, after)
    ensures ParseSize(before + (plus + digits) + after) == Some(Value(digits))
  {
    hide IsSpace, Value;
    var t := plus + digits;
    DigitIsNoSpace(digits[|digits| - 1]);
    DigitIsNoSpace(digits[0]);
    PlusIsNoSpace();
    TrimEndOf(before + t, after);
    TrimStartOf(before, t);
    assert plus == "" ==> t == digits;
    assert plus == "+" ==> t[1..] == digits;
  }

  lemma PlusIsNoSpace()
    ensures !IsSpace('+')
  {
  }

  lemma SizeReadIsText(text: string) returns (before: string, plus: string, digits: string, after: string)
    requires ParseSize(text).Some?
    ensures IsSizeText(before, plus, digits, after) && text == before + (plus + digits) + after
  {
    hide IsSpace, Value, TrimEnd, TrimStart, AllSpaces, AllDigits;
    var end := TrimEnd(text);
    var t := TrimStart(end);
    TrimEndSplits(text);
    TrimStartSplits(end);
    before, after := end[..|end| - |t|], text[|end|..];
    plus, digits := SignSplits(t);
    assert end == before + t && text == end + after;
  }

  lemma SignSplits(t: string) returns (plus: string, digits: string)
    requires t != ""
    ensures plus == (if t[0] == '+' then "+" else "") && digits == if t[0] == '+' then t[1..] else t
    ensures t == plus + digits
  {
    plus := if t[0] == '+' then "+" else "";
    digits := if t[0] == '+' then t[1..] else t;
  }

  /** `m` stands at `at`, and the next member at `next`. */
  ghost predicate StandsAt(archive: seq<Byte>, at: nat, m: Member, next: nat) {
    && at + 60 + |m.data| <= |archive| && at + 60 + |m.data| < 0x1_0000_0000_0000_0000
    && m.name == WithoutSlashes(TrimEnd(Text(archive[at..at + 16])))
    && ParseSize(Text(archive[at + 48..at + 58])) == Some(|m.data|)
    && m.data == archive[at + 60..at + 60 + |m.data|]
    && next == at + 60 + |m.data| + |m.data| % 2
  }

  /** Why no member stands at `at`. */
  ghost predicate FailsAt(archive: seq<Byte>, at: nat, e: ReadError) {
    if |archive| < at + 60 then e == HeaderTruncated
    else
      match ParseSize(Text(archive[at + 48..at + 58]))
      case None => e == BadSize
      case Some(n) =>
        if at + 60 + n >= 0x1_0000_0000_0000_0000 then e == SizeOverflow
        else at + 60 + n > |archive| && e == DataTruncated
  }

  lemma ReadMemberStands(archive: seq<Byte>, at: nat)
    requires at < |archive|
    ensures match ReadMember(archive, at)
            case Ok(read) => StandsAt(archive, at, read.m, read.next)
            case Err(e) => FailsAt(archive, at, e)
  {
    hide ParseSize, Text, TrimEnd, WithoutSlashes;
    if |archive| >= at + 60 {
      var header := archive[at..at + 60];
      assert header[48..58] == archive[at + 48..at + 58] && header[..16] == archive[at..at + 16];
    }
  }

  /**
   Whatever the bytes, reading from `offset` on walks from member to member, and ends with them at the end
   of the archive or with the error of the first place where no member stands.
   */
  lemma {:induction false} ParsedWalks(archive: seq<Byte>, offset: nat) returns (at: seq<nat>, members: seq<Member>)
    ensures |at| == |members| + 1 && at[0] == offset
    ensures forall i | 0 <= i < |members| :: at[i] < |archive| && StandsAt(archive, at[i], members[i], at[i + 1])
    ensures match Parsed(archive, offset)
            case Ok(read) => read == members && at[|members|] >= |archive|
            case Err(e) => at[|members|] < |archive| && FailsAt(archive, at[|members|], e)
    decreases |archive| - offset
  {
    hide StandsAt, FailsAt, ReadMember;
    if offset >= |archive| {
      at, members := [offset], [];
    } else {
      ReadMemberStands(archive, offset);
      match ReadMember(archive, offset)
      case Err(e) => at, members := [offset], [];
      case Ok(read) =>
        ReadMemberMoves(archive, offset);
        var rest, more := ParsedWalks(archive, read.next);
        at, members := [offset] + rest, [read.m] + more;
    }
  }

  lemma ReadMemberMoves(archive: seq<Byte>, offset: nat)
    ensures var r := ReadMember(archive, offset); r.Ok? ==> offset < r.value.next
  {
  }

  // ---- Reading what was written ----

  lemma TrimEndOfPadded(s: string, n: nat)
    requires s == "" || !IsSpace(s[|s| - 1])
    ensures TrimEnd(s + Spaces(n)) == s
  {
    TrimEndOf(s, Spaces(n));
  }

  lemma {:induction false} ValueOfDigits(n: nat)
    ensures AllDigits(Digits(n)) && Value(Digits(n)) == n
  {
    DigitsAreAscii(n);
    if n < 10 {
      assert Digits(n)[..0] == "";
    } else {
      ValueOfDigits(n / 10);
      assert Digits(n)[..|Digits(n)| - 1] == Digits(n / 10);
    }
  }

  lemma DigitIsNoSpace(c: char)
    requires '0' <= c <= '9'
    ensures !IsSpace(c) && c != '+'
  {
  }

  lemma ParseSizeOfDigits(n: nat)
    requires n < SIZE_LIMIT
    ensures ParseSize(Padded(Digits(n), 10)) == Some(n)
  {
    hide IsSpace, Digits, Value;
    var digits := Digits(n);
    DigitsAreAscii(n);
    ValueOfDigits(n);
    DigitIsNoSpace(digits[0]);
    DigitIsNoSpace(digits[|digits| - 1]);
    TrimEndOfPadded(digits, if |digits| < 10 then 10 - |digits| else 0);
  }

  lemma {:induction false} TextOfAscii(s: string)
    requires IsAscii(s)
    ensures Text(Bytes(s)) == s
  {
    if s == "" {
    } else {
      var bytes := Bytes(s);
      assert FirstPiece(bytes) == Piece(s[0], 1);
      assert bytes[1..] == Bytes(s[1..]);
      TextOfAscii(s[1..]);
      assert s == [s[0]] + s[1..];
    }
  }

  lemma TextOfBytes(s: string, lo: nat, hi: nat)
    requires IsAscii(s) && lo <= hi <= |s|
    ensures Text(Bytes(s)[lo..hi]) == s[lo..hi]
  {
    assert Bytes(s)[lo..hi] == Bytes(s[lo..hi]);
    TextOfAscii(s[lo..hi]);
  }

  lemma ReadName(name: string, size: nat)
    requires Storable(name, size)
    ensures var h := Header(name, size);
            IsAscii(h) && |h| == HEADER_LENGTH && NameIn(Bytes(h)) == WithoutSlashes(name)
  {
    var h := Header(name, size);
    WritesIffStorable(name, size);
    TextOfBytes(h, 0, 16);
    assert h[..16] == Padded(name + "/", 16);
    TrimEndOfPadded(name + "/", 16 - |name + "/"|);
    assert (name + "/")[..|name|] == name;
  }

  lemma ReadSize(name: string, size: nat)
    requires Storable(name, size)
    ensures var h := Header(name, size);
            IsAscii(h) && |h| == HEADER_LENGTH && ParseSize(Text(Bytes(h)[48..58])) == Some(size)
  {
    var h := Header(name, size);
    WritesIffStorable(name, size);
    SizeFits(size);
    TextOfBytes(h, 48, 58);
    assert h[48..58] == Padded(Digits(size), 10);
    ParseSizeOfDigits(size);
  }

  /** The members as they are read back: a name loses its trailing slashes. */
  function ReadBack(members: seq<StorableMember>): seq<Member> {
    seq(|members|, i requires 0 <= i < |members| => Member(WithoutSlashes(members[i].name), members[i].data))
  }

  /** The first of two parts of what an archive holds from some offset on. */
  lemma FirstPart(archive: seq<Byte>, offset: nat, first: seq<Byte>, rest: seq<Byte>)
    requires offset <= |archive| && archive[offset..] == first + rest
    ensures offset + |first| <= |archive|
    ensures archive[offset..offset + |first|] == first && archive[offset + |first|..] == rest
  {
    assert archive[offset..][..|first|] == first && archive[offset..][|first|..] == rest;
  }

  /** A member whose header gives the length of its data is read whole. */
  lemma PartsRead(archive: seq<Byte>, offset: nat, header: seq<Byte>, data: seq<Byte>, padding: seq<Byte>,
                  rest: seq<Byte>)
    requires |archive| < USIZE_LIMIT && offset <= |archive| && archive[offset..] == header + (data + (padding + rest))
    requires |header| == HEADER_LENGTH && |padding| == |data| % 2
    requires ParseSize(Text(header[48..58])) == Some(|data|)
    ensures var next := offset + HEADER_LENGTH + |data| + |padding|;
            && next <= |archive| && archive[next..] == rest
            && ReadMember(archive, offset) == Ok(Read(Member(NameIn(header), data), next))
  {
    hide ParseSize, Text, NameIn;
    FirstPart(archive, offset, header, data + (padding + rest));
    FirstPart(archive, offset + HEADER_LENGTH, data, padding + rest);
    FirstPart(archive, offset + HEADER_LENGTH + |data|, padding, rest);
  }

  /** A written member is read back. */
  lemma MemberReads(archive: seq<Byte>, offset: nat, m: StorableMember, rest: seq<Byte>)
    requires |archive| < USIZE_LIMIT
    requires offset <= |archive| && archive[offset..] == MemberBytes(m) + rest
    ensures var next := offset + |MemberBytes(m)|;
            && next <= |archive| && archive[next..] == rest
            && ReadMember(archive, offset) == Ok(Read(Member(WithoutSlashes(m.name), m.data), next))
  {
    hide Header, ParseSize, Text, NameIn, ReadMember, WithoutSlashes;
    ReadName(m.name, |m.data|);
    ReadSize(m.name, |m.data|);
    var header, padding := Bytes(Header(m.name, |m.data|)), Padding(|m.data|);
    Regroup(header, m.data, padding);
    Regroup(header, m.data + padding, rest);
    Regroup(m.data, padding, rest);
    PartsRead(archive, offset, header, m.data, padding, rest);
  }

  lemma ParsedStep(archive: seq<Byte>, offset: nat, read: Read)
    requires offset < |archive| && ReadMember(archive, offset) == Ok(read)
    ensures Parsed(archive, offset) == After([read.m], Parsed(archive, read.next))
  {
  }

  lemma ReadBackStep(members: seq<StorableMember>)
    requires members != []
    ensures Ok(ReadBack(members))
         == After([Member(WithoutSlashes(members[0].name), members[0].data)], Ok(ReadBack(members[1..])))
  {
    assert ReadBack(members) == [Member(WithoutSlashes(members[0].name), members[0].data)] + ReadBack(members[1..]);
  }

  lemma {:induction false} BodyParses(archive: seq<Byte>, offset: nat, members: seq<StorableMember>)
    requires |archive| < USIZE_LIMIT && offset <= |archive| && archive[offset..] == Body(members)
    ensures Parsed(archive, offset) == Ok(ReadBack(members))
    decreases |members|
  {
    hide MemberBytes;
    if members == [] {
      assert offset == |archive| && ReadBack(members) == [];
    } else {
      var m, rest := members[0], members[1..];
      var next := offset + |MemberBytes(m)|;
      assert Body(members) == MemberBytes(m) + Body(rest);
      MemberReads(archive, offset, m, Body(rest));
      BodyParses(archive, next, rest);
      ParsedStep(archive, offset, Read(Member(WithoutSlashes(m.name), m.data), next));
      ReadBackStep(members);
    }
  }

  predicate EndsWithSlash(name: string) {
    name != "" && name[|name| - 1] == '/'
  }

  lemma {:induction false} WithoutSlashesIsPrefix(s: string)
    ensures |WithoutSlashes(s)| <= |s|
    ensures WithoutSlashes(s) == s <==> !EndsWithSlash(s)
  {
    if EndsWithSlash(s) {
      WithoutSlashesIsPrefix(s[..|s| - 1]);
    }
  }

  /**
   Reading a written archive gives its members, with the slashes at the end of their names gone; it gives
   exactly the same members if and only if no name ends with a slash.
   */
  lemma RoundTrip(members: seq<StorableMember>)
    requires |MAGIC + Body(members)| < USIZE_LIMIT
    ensures Parsed(MAGIC + Body(members), 8) == Ok(ReadBack(members))
    ensures ReadBack(members) == members <==> forall m | m in members :: !EndsWithSlash(m.name)
  {
    BodyParses(MAGIC + Body(members), 8, members);
    forall i | 0 <= i < |members|
      ensures WithoutSlashes(members[i].name) == members[i].name <==> !EndsWithSlash(members[i].name)
    {
      WithoutSlashesIsPrefix(members[i].name);
    }
    if ReadBack(members) == members {
      forall m | m in members
        ensures !EndsWithSlash(m.name)
      {
        var i :| 0 <= i < |members| && members[i] == m;
        assert ReadBack(members)[i] == m;
      }
    }
  }

  /** A Debian package reads back as its three members. */
  lemma DebReadsBack(controlGz: Archive, dataGz: Archive)
    ensures Parsed(MAGIC + Body(DebMembers(controlGz, dataGz)), 8)
         == Ok([Member("debian-binary", Bytes("2.0\n")), Member("control.tar.gz", controlGz),
                Member("data.tar.gz", dataGz)])
  {
    var members := DebMembers(controlGz, dataGz);
    BodyOfThree(members[0], members[1], members[2]);
    FixedTexts();
    RoundTrip(members);
  }

  lemma {:induction false} BodyConcat(xs: seq<StorableMember>, ys: seq<StorableMember>)
    ensures Body(xs + ys) == Body(xs) + Body(ys)
    decreases |xs|
  {
    hide MemberBytes;
    if xs == [] {
      assert xs + ys == ys;
    } else {
      assert (xs + ys)[1..] == xs[1..] + ys;
      BodyConcat(xs[1..], ys);
    }
  }

  lemma BodyCons(m: StorableMember, rest: seq<StorableMember>)
    ensures Body([m] + rest) == MemberBytes(m) + Body(rest)
  {
    hide MemberBytes;
    assert ([m] + rest)[1..] == rest;
  }

  lemma BodySplits(members: seq<StorableMember>, i: nat)
    requires i < |members|
    ensures Body(members) == Body(members[..i]) + (MemberBytes(members[i]) + Body(members[i + 1..]))
  {
    hide MemberBytes;
    BodyCons(members[i], members[i + 1..]);
    BodyConcat(members[..i], [members[i]] + members[i + 1..]);
    assert members[..i] + ([members[i]] + members[i + 1..]) == members;
  }

  /** Every member starts at an even offset, right where the members before it end. */
  lemma MembersAreAligned(members: seq<StorableMember>, i: nat)
    requires i < |members|
    ensures |MAGIC + Body(members[..i])| % 2 == 0
    ensures MAGIC + Body(members) == (MAGIC + Body(members[..i])) + (MemberBytes(members[i]) + Body(members[i + 1..]))
  {
    hide MemberBytes;
    BodySplits(members, i);
    BodyIsEven(members[..i]);
    Regroup(MAGIC, Body(members[..i]), MemberBytes(members[i]) + Body(members[i + 1..]));
  }
}
