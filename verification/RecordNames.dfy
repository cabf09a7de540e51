/**
 How records are named on disk: base16 of the key, as in section 8 of RFC 4648
 but with lower-case digits, and temporary names that can never be mistaken for it.
 */
module RecordNames {
  import opened Wrappers
  import opened Decimal

  type byte = n: nat | n < 0x100

  /** Well-formed UTF-8, which is what every Rust string is. */
  predicate ValidUtf8(b: seq<byte>)
    decreases |b|
  {
    b == [] ||
    (b[0] < 0x80 && ValidUtf8(b[1..])) ||
    (|b| >= 2 && 0xC2 <= b[0] <= 0xDF && Trailing(b[1]) && ValidUtf8(b[2..])) ||
    (|b| >= 3 && Leads3(b[0], b[1]) && Trailing(b[2]) && ValidUtf8(b[3..])) ||
    (|b| >= 4 && Leads4(b[0], b[1]) && Trailing(b[2]) && Trailing(b[3]) && ValidUtf8(b[4..]))
  }

  predicate Trailing(b: byte) {
    0x80 <= b <= 0xBF
  }

  predicate Leads3(a: byte, b: byte) {
    || (a == 0xE0 && 0xA0 <= b <= 0xBF)
    || ((0xE1 <= a <= 0xEC || 0xEE <= a <= 0xEF) && Trailing(b))
    || (a == 0xED && 0x80 <= b <= 0x9F)
  }

  predicate Leads4(a: byte, b: byte) {
    || (a == 0xF0 && 0x90 <= b <= 0xBF)
    || (0xF1 <= a <= 0xF3 && Trailing(b))
    || (a == 0xF4 && 0x80 <= b <= 0x8F)
  }

  /** A Unicode scalar value: what a Rust string is made of. */
  type Scalar = c: nat | c < 0xD800 || 0xE000 <= c < 0x11_0000

  /** How one is written in UTF-8 (section 3 of RFC 3629). */
  function Utf8(c: Scalar): seq<byte> {
    if c < 0x80 then [c]
    else if c < 0x800 then [0xC0 + c / 64, 0x80 + c % 64]
    else if c < 0x1_0000 then [0xE0 + c / 4096, 0x80 + c / 64 % 64, 0x80 + c % 64]
    else [0xF0 + c / 262_144, 0x80 + c / 4096 % 64, 0x80 + c / 64 % 64, 0x80 + c % 64]
  }

  function Utf8Text(text: seq<Scalar>): seq<byte> {
    if text == [] then [] else Utf8(text[0]) + Utf8Text(text[1..])
  }

  /** The bytes of one scalar value are of a form that `ValidUtf8` accepts. */
  predicate Heads(b: seq<byte>) {
    || (|b| == 1 && b[0] < 0x80)
    || (|b| == 2 && 0xC2 <= b[0] <= 0xDF && Trailing(b[1]))
    || (|b| == 3 && Leads3(b[0], b[1]) && Trailing(b[2]))
    || (|b| == 4 && Leads4(b[0], b[1]) && Trailing(b[2]) && Trailing(b[3]))
  }

  lemma ScalarHeads(c: Scalar)
    ensures Heads(Utf8(c))
  {
    if 0x800 <= c < 0x1_0000 {
      ThreeLead(c);
    } else if c >= 0x1_0000 {
      FourLead(c);
    }
  }

  lemma ThreeLead(c: Scalar)
    requires 0x800 <= c < 0x1_0000
    ensures Leads3(0xE0 + c / 4096, 0x80 + c / 64 % 64)
  {
    assert c / 64 / 64 == c / 4096;
  }

  lemma FourLead(c: Scalar)
    requires c >= 0x1_0000
    ensures Leads4(0xF0 + c / 262_144, 0x80 + c / 4096 % 64)
  {
    assert c / 4096 / 64 == c / 262_144;
  }

  lemma HeadsThenValid(head: seq<byte>, rest: seq<byte>)
    requires Heads(head)
    ensures ValidUtf8(head + rest) <==> ValidUtf8(rest)
  {
    var b := head + rest;
    assert b[|head|..] == rest;
    assert forall i :: 0 <= i < |head| ==> b[i] == head[i];
  }

  lemma {:induction false} TextIsValid(text: seq<Scalar>)
    ensures ValidUtf8(Utf8Text(text))
  {
    if text != [] {
      TextIsValid(text[1..]);
      ScalarHeads(text[0]);
      HeadsThenValid(Utf8(text[0]), Utf8Text(text[1..]));
    }
  }

  /** Bytes of such a form are one scalar value's. */
  lemma HeadsAreScalars(b: seq<byte>) returns (c: Scalar)
    requires Heads(b)
    ensures Utf8(c) == b
  {
    var b0: int := b[0];
    if |b| == 1 {
      c := b0;
    } else if |b| == 2 {
      c := Tail(b0 - 0xC0, b[1]);
    } else if |b| == 3 {
      c := ThreeBytes(b);
    } else {
      c := FourBytes(b);
    }
  }

  lemma ThreeBytes(b: seq<byte>) returns (c: Scalar)
    requires |b| == 3 && Heads(b)
    ensures Utf8(c) == b
  {
    var b0: int := b[0];
    var high := Tail(b0 - 0xE0, b[1]);
    assert 32 <= high < 0x360 || 0x380 <= high < 0x400;
    c := Tail(high, b[2]);
    assert c / 4096 == high / 64;
  }

  lemma FourBytes(b: seq<byte>) returns (c: Scalar)
    requires |b| == 4 && Heads(b)
    ensures Utf8(c) == b
  {
    var b0: int := b[0];
    var top := Tail(b0 - 0xF0, b[1]);
    assert 16 <= top < 0x110;
    var high := Tail(top, b[2]);
    c := Tail(high, b[3]);
    assert c / 4096 == top && c / 262_144 == top / 64;
  }

  /** Six more bits. */
  function Tail(high: nat, b: byte): (n: nat)
    requires Trailing(b)
    ensures n / 64 == high && n % 64 == b - 0x80
  {
    high * 64 + (b - 0x80)
  }

  lemma {:induction false} ValidIsText(b: seq<byte>) returns (text: seq<Scalar>)
    requires ValidUtf8(b)
    ensures Utf8Text(text) == b
    decreases |b|
  {
    if b == [] {
      text := [];
    } else {
      var n := if b[0] < 0x80 then 1 else if b[0] <= 0xDF then 2 else if b[0] <= 0xEF then 3 else 4;
      assert b == b[..n] + b[n..];
      var c := HeadsAreScalars(b[..n]);
      var more := ValidIsText(b[n..]);
      text := [c] + more;
      assert text[1..] == more;
    }
  }

  /** Valid bytes are exactly those some text is written as. */
  lemma ValidUtf8Iff(b: seq<byte>)
    ensures ValidUtf8(b) <==> exists text :: Utf8Text(text) == b
  {
    if ValidUtf8(b) {
      var text := ValidIsText(b);
    }
    if text :| Utf8Text(text) == b {
      TextIsValid(text);
    }
  }

  /** A key: the bytes of a Rust string. */
  type Key = b: seq<byte> | ValidUtf8(b)

  // ------------------------------------------------------------------ hex

  predicate LowerHex(c: char) {
    IsDigit(c) || 'a' <= c <= 'f'
  }

  predicate AnyHex(c: char) {
    LowerHex(c) || 'A' <= c <= 'F'
  }

  function HexDigit(n: nat): (c: char)
    requires n < 16
    ensures LowerHex(c)
  {
    if n < 10 then '0' + n as char else 'a' + (n - 10) as char
  }

  function HexValue(c: char): (n: nat)
    requires AnyHex(c)
    ensures n < 16
  {
    if IsDigit(c) then c as int - '0' as int
    else if 'a' <= c <= 'f' then c as int - 'a' as int + 10
    else c as int - 'A' as int + 10
  }

  function HexEncode(bytes: seq<byte>): string {
    if bytes == [] then ""
    else [HexDigit(bytes[0] / 16), HexDigit(bytes[0] % 16)] + HexEncode(bytes[1..])
  }

  /** The encoder as it runs, appending two digits a byte. */
  method EncodeKey(bytes: seq<byte>) returns (s: string)
    ensures s == HexEncode(bytes)
  {
    s := "";
    var i := 0;
    while i < |bytes|
      invariant 0 <= i <= |bytes|
      invariant s + HexEncode(bytes[i..]) == HexEncode(bytes)
    {
      var b := bytes[i];
      assert bytes[i..][1..] == bytes[i + 1..];
      s := s + [HexDigit(b / 16), HexDigit(b % 16)];
      i := i + 1;
    }
  }

  /** Two characters read in base 16 into a byte; a leading plus sign is accepted. */
  function ReadPair(a: char, b: char): Option<byte> {
    if AnyHex(a) && AnyHex(b) then Some(HexValue(a) * 16 + HexValue(b))
    else if a == '+' && AnyHex(b) then Some(HexValue(b))
    else None
  }

  function ReadPairs(s: string): Option<seq<byte>>
    requires |s| % 2 == 0
    decreases |s|
  {
    if s == "" then Some([])
    else
      match (ReadPair(s[0], s[1]), ReadPairs(s[2..]))
      case (Some(b), Some(rest)) => Some([b] + rest)
      case _ => None
  }

  predicate IsAscii(s: string) {
    forall i :: 0 <= i < |s| ==> s[i] as int < 0x80
  }

  function HexDecode(s: string): Option<seq<byte>> {
    if |s| % 2 != 0 || !IsAscii(s) then None else ReadPairs(s)
  }

  lemma {:induction false} EncodingIsHex(bytes: seq<byte>)
    ensures |HexEncode(bytes)| == 2 * |bytes|
    ensures forall i :: 0 <= i < |HexEncode(bytes)| ==> LowerHex(HexEncode(bytes)[i])
  {
    if bytes != [] {
      EncodingIsHex(bytes[1..]);
    }
  }

  lemma {:induction false} PairsReadBack(bytes: seq<byte>)
    ensures |HexEncode(bytes)| % 2 == 0
    ensures ReadPairs(HexEncode(bytes)) == Some(bytes)
  {
    EncodingIsHex(bytes);
    if bytes != [] {
      PairsReadBack(bytes[1..]);
      assert HexEncode(bytes)[2..] == HexEncode(bytes[1..]);
      assert bytes == [bytes[0]] + bytes[1..];
    }
  }

  /** Every key is recovered from its file name. */
  lemma DecodeAfterEncode(bytes: seq<byte>)
    ensures HexDecode(HexEncode(bytes)) == Some(bytes)
  {
    EncodingIsHex(bytes);
    PairsReadBack(bytes);
  }

  lemma EncodeInjective(a: seq<byte>, b: seq<byte>)
    requires HexEncode(a) == HexEncode(b)
    ensures a == b
  {
    DecodeAfterEncode(a);
    DecodeAfterEncode(b);
  }

  lemma {:induction false} ReadableChars(s: string)
    requires |s| % 2 == 0 && ReadPairs(s).Some?
    ensures forall i :: 0 <= i < |s| ==> AnyHex(s[i]) || s[i] == '+'
    decreases |s|
  {
    if s != "" {
      ReadableChars(s[2..]);
      assert forall i :: 2 <= i < |s| ==> s[i] == s[2..][i - 2];
    }
  }

  /**
   The other direction holds for exactly the names the store writes: the decoder
   also reads upper case and plus signs, which the encoder never produces.
   */
  lemma EncodeAfterDecodeIffLower(s: string)
    requires HexDecode(s).Some?
    ensures HexEncode(HexDecode(s).value) == s <==> forall i :: 0 <= i < |s| ==> LowerHex(s[i])
  {
    EncodingIsHex(HexDecode(s).value);
    if forall i :: 0 <= i < |s| ==> LowerHex(s[i]) {
      LowerReencodes(s);
    }
  }

  lemma {:induction false} LowerReencodes(s: string)
    requires |s| % 2 == 0 && forall i :: 0 <= i < |s| ==> LowerHex(s[i])
    ensures ReadPairs(s).Some? && HexEncode(ReadPairs(s).value) == s
    decreases |s|
  {
    if s != "" {
      LowerReencodes(s[2..]);
      PairReencodes(s[0], s[1]);
      var rest := ReadPairs(s[2..]).value;
      assert ReadPairs(s).value[1..] == rest;
      assert s == [s[0], s[1]] + s[2..];
    }
  }

  lemma PairReencodes(a: char, b: char)
    requires LowerHex(a) && LowerHex(b)
    ensures ReadPair(a, b).Some?
    ensures HexDigit(ReadPair(a, b).value / 16) == a && HexDigit(ReadPair(a, b).value % 16) == b
  {
    assert (HexValue(a) * 16 + HexValue(b)) / 16 == HexValue(a);
    assert (HexValue(a) * 16 + HexValue(b)) % 16 == HexValue(b);
  }

  const HEX := "0123456789abcdef"
  const HEX_UPPER := "0123456789ABCDEF"

  /** The name spells each byte as its two digits, the high one first. */
  lemma {:induction false} EncodedByte(bytes: seq<byte>, k: nat)
    requires k < |bytes|
    ensures |HexEncode(bytes)| == 2 * |bytes|
    ensures HexEncode(bytes)[2 * k] == HEX[bytes[k] / 16]
    ensures HexEncode(bytes)[2 * k + 1] == HEX[bytes[k] % 16]
    decreases k
  {
    EncodingIsHex(bytes);
    var s, rest := HexEncode(bytes), bytes[1..];
    assert s == [HexDigit(bytes[0] / 16), HexDigit(bytes[0] % 16)] + HexEncode(rest);
    if k == 0 {
      DigitSpells(bytes[0] / 16);
      DigitSpells(bytes[0] % 16);
    } else {
      EncodedByte(rest, k - 1);
      EncodingIsHex(rest);
      assert s[2 * k] == HexEncode(rest)[2 * (k - 1)] && s[2 * k + 1] == HexEncode(rest)[2 * (k - 1) + 1];
    }
  }

  lemma DigitSpells(n: nat)
    requires n < 16
    ensures HexDigit(n) == HEX[n]
  {
  }

  predicate Spells(c: char, n: nat)
    requires n < 16
  {
    c == HEX[n] || c == HEX_UPPER[n]
  }

  predicate PairSpells(a: char, b: char, n: byte) {
    (Spells(a, n / 16) || (a == '+' && n < 16)) && Spells(b, n % 16)
  }

  lemma SpellsIff(c: char, n: nat)
    requires n < 16
    ensures Spells(c, n) <==> AnyHex(c) && HexValue(c) == n
  {
  }

  lemma ReadPairIff(a: char, b: char, n: byte)
    ensures ReadPair(a, b) == Some(n) <==> PairSpells(a, b, n)
  {
    SpellsIff(a, n / 16);
    SpellsIff(b, n % 16);
  }

  /**
   What the decoder reads: pairs of digits in either case, and a plus sign for a
   leading nought. Nothing else decodes, and each pair is worth what it spells.
   */
  lemma DecodesIff(s: string, bytes: seq<byte>)
    ensures HexDecode(s) == Some(bytes)
       <==> |s| == 2 * |bytes| && forall k :: 0 <= k < |bytes| ==> PairSpells(s[2 * k], s[2 * k + 1], bytes[k])
  {
    if |s| % 2 == 0 {
      PairsIff(s, bytes);
      if |s| == 2 * |bytes| && forall k :: 0 <= k < |bytes| ==> PairSpells(s[2 * k], s[2 * k + 1], bytes[k]) {
        PairsAreAscii(s, bytes);
      }
    }
  }

  lemma PairsAreAscii(s: string, bytes: seq<byte>)
    requires |s| == 2 * |bytes| && forall k :: 0 <= k < |bytes| ==> PairSpells(s[2 * k], s[2 * k + 1], bytes[k])
    ensures IsAscii(s)
  {
    forall i | 0 <= i < |s|
      ensures s[i] as int < 0x80
    {
      assert PairSpells(s[2 * (i / 2)], s[2 * (i / 2) + 1], bytes[i / 2]);
    }
  }

  lemma {:induction false} PairsIff(s: string, bytes: seq<byte>)
    requires |s| % 2 == 0
    ensures ReadPairs(s) == Some(bytes)
       <==> |s| == 2 * |bytes| && forall k :: 0 <= k < |bytes| ==> PairSpells(s[2 * k], s[2 * k + 1], bytes[k])
    decreases |s|
  {
    if s != "" && bytes != [] {
      ReadPairIff(s[0], s[1], bytes[0]);
      PairsIff(s[2..], bytes[1..]);
      assert bytes == [bytes[0]] + bytes[1..];
      if |s| == 2 * |bytes| {
        AllFromFirst(s, bytes);
      }
    }
  }

  lemma AllFromFirst(s: string, bytes: seq<byte>)
    requires |s| == 2 * |bytes| && bytes != []
    ensures (forall k :: 0 <= k < |bytes| ==> PairSpells(s[2 * k], s[2 * k + 1], bytes[k]))
       <==> PairSpells(s[0], s[1], bytes[0]) &&
            forall k :: 0 <= k < |bytes[1..]| ==> PairSpells(s[2..][2 * k], s[2..][2 * k + 1], bytes[1..][k])
  {
    var t, rest := s[2..], bytes[1..];
    if forall k :: 0 <= k < |bytes| ==> PairSpells(s[2 * k], s[2 * k + 1], bytes[k]) {
      assert PairSpells(s[2 * 0], s[2 * 0 + 1], bytes[0]);
      forall k | 0 <= k < |rest|
        ensures PairSpells(t[2 * k], t[2 * k + 1], rest[k])
      {
        assert PairSpells(s[2 * (k + 1)], s[2 * (k + 1) + 1], bytes[k + 1]);
      }
    }
    if PairSpells(s[0], s[1], bytes[0]) && forall k :: 0 <= k < |rest| ==> PairSpells(t[2 * k], t[2 * k + 1], rest[k]) {
      forall k | 0 <= k < |bytes|
        ensures PairSpells(s[2 * k], s[2 * k + 1], bytes[k])
      {
        if k > 0 {
          assert PairSpells(t[2 * (k - 1)], t[2 * (k - 1) + 1], rest[k - 1]);
        }
      }
    }
  }

  // ------------------------------------------------------ temporary names

  /** A temporary name: the record's, the process, and that process's next number. */
  function TempName(record: string, pid: nat, seqNo: nat): string {
    record + "." + Digits(pid) + "." + Digits(seqNo) + ".tmp"
  }

  /** Nothing with a dot in it decodes, so no temporary file is ever read as a record. */
  lemma DottedNeverDecodes(s: string)
    requires '.' in s
    ensures HexDecode(s) == None
  {
    if HexDecode(s).Some? {
      ReadableChars(s);
    }
  }

  lemma TempNameIsDotted(record: string, pid: nat, seqNo: nat)
    ensures '.' in TempName(record, pid, seqNo)
  {
    assert TempName(record, pid, seqNo)[|record|] == '.';
  }

  lemma RecordNameIsNotDotted(key: seq<byte>)
    ensures '.' !in HexEncode(key) && '/' !in HexEncode(key)
    ensures HexEncode(key) == "" <==> key == []
  {
    EncodingIsHex(key);
  }

  lemma FirstDotSplits(a: string, x: string, b: string, y: string)
    requires '.' !in a && '.' !in b
    requires a + "." + x == b + "." + y
    ensures a == b && x == y
  {
    var s := a + "." + x;
    assert s[|a|] == '.' && s[|b|] == '.';
    assert |a| == |b|;
    assert a == s[..|a|] && b == s[..|b|];
    assert x == s[|a| + 1..] && y == s[|b| + 1..];
  }

  lemma Regroup(a: string, b: string, c: string)
    ensures a + "." + b + "." + c + ".tmp" == a + "." + (b + "." + (c + "." + "tmp"))
  {
  }

  lemma DotsSplit(a: string, b: string, c: string, a': string, b': string, c': string)
    requires '.' !in a && '.' !in b && '.' !in c && '.' !in a' && '.' !in b' && '.' !in c'
    requires a + "." + b + "." + c + ".tmp" == a' + "." + b' + "." + c' + ".tmp"
    ensures a == a' && b == b' && c == c'
  {
    Regroup(a, b, c);
    Regroup(a', b', c');
    FirstDotSplits(a, b + "." + (c + "." + "tmp"), a', b' + "." + (c' + "." + "tmp"));
    FirstDotSplits(b, c + "." + "tmp", b', c' + "." + "tmp");
    FirstDotSplits(c, "tmp", c', "tmp");
  }

  /** Two puts share a temporary name only if they are the same call of the same process. */
  lemma TempNameInjective(k1: seq<byte>, p1: nat, n1: nat, k2: seq<byte>, p2: nat, n2: nat)
    requires TempName(HexEncode(k1), p1, n1) == TempName(HexEncode(k2), p2, n2)
    ensures k1 == k2 && p1 == p2 && n1 == n2
  {
    RecordNameIsNotDotted(k1);
    RecordNameIsNotDotted(k2);
    DotsSplit(HexEncode(k1), Digits(p1), Digits(n1), HexEncode(k2), Digits(p2), Digits(n2));
    EncodeInjective(k1, k2);
    DigitsInjective(p1, p2);
    DigitsInjective(n1, n2);
  }

  // ---------------------------------------------------------------- paths

  predicate SlugChar(c: char) {
    IsDigit(c) || 'a' <= c <= 'z' || 'A' <= c <= 'Z' || c in {'.', '_', '-'}
  }

  /** What a namespace may be called. */
  predicate ValidNamespace(ns: string) {
    && ns != ""
    && ns != "."
    && ns != ".."
    && forall i :: 0 <= i < |ns| ==> SlugChar(ns[i])
  }

  /** A letter, a digit, a dash, a dot or an underscore, by its code. */
  predicate SlugCode(c: int) {
    65 <= c <= 90 || 97 <= c <= 122 || 48 <= c <= 57 || c in {45, 46, 95}
  }

  /** A namespace is any name of such characters that a directory can have. */
  lemma NamespaceIff(ns: string)
    ensures ValidNamespace(ns) <==> ns !in {"", ".", ".."} && forall i :: 0 <= i < |ns| ==> SlugCode(ns[i] as int)
  {
    assert forall c: char :: SlugChar(c) <==> SlugCode(c as int);
  }

  /** The path of a record below the root, or the refusal of its namespace. */
  function RecordPath(ns: string, key: seq<byte>): Option<string> {
    if ValidNamespace(ns) then Some(ns + "/" + HexEncode(key)) else None
  }

  /** Distinct records have distinct paths. */
  lemma RecordPathInjective(ns1: string, k1: seq<byte>, ns2: string, k2: seq<byte>)
    requires RecordPath(ns1, k1).Some?
    requires RecordPath(ns1, k1) == RecordPath(ns2, k2)
    ensures ns1 == ns2 && k1 == k2
  {
    var s := ns1 + "/" + HexEncode(k1);
    assert forall i :: 0 <= i < |ns1| ==> s[i] == ns1[i];
    assert s[|ns1|] == '/' && s[|ns2|] == '/';
    assert |ns1| == |ns2|;
    assert ns1 == s[..|ns1|] && ns2 == s[..|ns2|];
    assert HexEncode(k1) == s[|ns1| + 1..] && HexEncode(k2) == s[|ns2| + 1..];
    EncodeInjective(k1, k2);
  }

  /** A path component a file system does not follow anywhere else. */
  predicate Plain(component: string) {
    component != "" && component != "." && component != ".." && '/' !in component
  }

  /**
   No key, however hostile, leaves its namespace: the record and its temporary
   are plain names directly inside a plain directory of the root. Only the empty
   key has no name of its own, and then the path is the directory's.
   */
  lemma RecordsStayInside(ns: string, key: seq<byte>, pid: nat, seqNo: nat)
    requires ValidNamespace(ns)
    ensures Plain(ns)
    ensures Plain(HexEncode(key)) <==> key != []
    ensures Plain(TempName(HexEncode(key), pid, seqNo))
    ensures HexEncode(key) != TempName(HexEncode(key), pid, seqNo)
  {
    RecordNameIsNotDotted(key);
    TempNameIsDotted(HexEncode(key), pid, seqNo);
    if key != [] {
      assert HexEncode(key)[0] != '.';
    }
    var parts := [HexEncode(key), ".", Digits(pid), ".", Digits(seqNo), ".tmp"];
    assert forall i :: 0 <= i < |parts| ==> '/' !in parts[i];
    assert |TempName(HexEncode(key), pid, seqNo)| > 2;
  }
}
