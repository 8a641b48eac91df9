/** Hexadecimal prefixes, and the 128-bit digests by which keywords are routed. */
module Hex {
  type Nibble = n: nat | n < 16
  type Byte = b: nat | b < 256
  type Digest = d: seq<Byte> | |d| == 16 witness seq(16, i => 0)

  /** The deepest prefix a ring may hold: every digit of a digest. */
  const MAX_PREFIX_LEN := 32

  /** A keyword is its text together with the digest xxh3 gives that text. Results below hold for
      every pairing, and so for the one hash function the system uses. */
  datatype Keyword = Keyword(text: string, digest: Digest) {
    function Key(): (key: string)
      ensures |key| == MAX_PREFIX_LEN && LowerHex(key)
    {
      seq(MAX_PREFIX_LEN, i requires 0 <= i < MAX_PREFIX_LEN => HexDigit(DigestNibbleAt(digest, i)))
    }
  }

  /** The value of a digit; anything that is not a hexadecimal digit counts as zero. */
  function HexNibble(c: char): Nibble {
    if '0' <= c <= '9' then c as int - '0' as int
    else if 'a' <= c <= 'f' then c as int - 'a' as int + 10
    else if 'A' <= c <= 'F' then c as int - 'A' as int + 10
    else 0
  }

  function HexDigit(n: Nibble): (c: char)
    ensures IsLowerHexDigit(c) && HexNibble(c) == n
  {
    if n < 10 then ('0' as int + n) as char else ('a' as int + n - 10) as char
  }

  predicate IsLowerHexDigit(c: char) {
    '0' <= c <= '9' || 'a' <= c <= 'f'
  }

  predicate LowerHex(s: string) {
    forall i :: 0 <= i < |s| ==> IsLowerHexDigit(s[i])
  }

  function DigitAt(key: string, index: nat): Nibble {
    if index < |key| then HexNibble(key[index]) else 0
  }

  function DigestNibbleAt(digest: Digest, index: nat): Nibble {
    var byte := if index / 2 < |digest| then digest[index / 2] else 0;
    if index % 2 == 0 then byte / 16 else byte % 16
  }

  function Capped(s: string): string {
    if |s| <= MAX_PREFIX_LEN then s else s[..MAX_PREFIX_LEN]
  }

  /** Same digits, written in lower case. */
  function Canonical(s: string): (t: string)
    ensures |t| == |s| && LowerHex(t)
    ensures forall i :: 0 <= i < |s| ==> HexNibble(t[i]) == HexNibble(s[i])
  {
    seq(|s|, i requires 0 <= i < |s| => HexDigit(HexNibble(s[i])))
  }

  /** The comparison the manager uses to decide that a keyword lies under a prefix. */
  predicate KeywordMatchesPrefix(keyword: Keyword, prefix: string) {
    forall i :: 0 <= i < |Capped(prefix)| ==> HexNibble(prefix[i]) == DigestNibbleAt(keyword.digest, i)
  }

  /** On canonical prefixes the manager's digit comparison and a storager's string comparison agree. */
  lemma MatchIsStringPrefix(keyword: Keyword, prefix: string)
    requires LowerHex(prefix) && |prefix| <= MAX_PREFIX_LEN
    ensures KeywordMatchesPrefix(keyword, prefix) <==> prefix <= keyword.Key()
  {
    var key := keyword.Key();
    forall i | 0 <= i < |prefix|
      ensures HexNibble(prefix[i]) == DigestNibbleAt(keyword.digest, i) <==> prefix[i] == key[i]
    {
      assert key[i] == HexDigit(DigestNibbleAt(keyword.digest, i));
      NibbleInjective(prefix[i], key[i]);
    }
    assert prefix <= key <==> forall i :: 0 <= i < |prefix| ==> prefix[i] == key[i];
  }

  lemma NibbleInjective(c: char, d: char)
    requires IsLowerHexDigit(c) && IsLowerHexDigit(d)
    ensures HexNibble(c) == HexNibble(d) <==> c == d
  {}

  lemma CanonicalOfLowerHex(s: string)
    requires LowerHex(s)
    ensures Canonical(s) == s
  {
    var t := Canonical(s);
    forall i | 0 <= i < |s| ensures t[i] == s[i] {
      NibbleInjective(t[i], s[i]);
    }
  }

  function Pow16(k: nat): (p: nat)
    ensures p > 0
  {
    if k == 0 then 1 else 16 * Pow16(k - 1)
  }

  /** The number a string of digits denotes, most significant digit first. */
  function Value(s: string): (v: nat)
    ensures v < Pow16(|s|)
  {
    if s == "" then 0 else 16 * Value(s[..|s| - 1]) + HexNibble(s[|s| - 1])
  }

  /** `value` in base sixteen, padded with zeros to `len` digits. */
  function FormatPrefix(value: nat, len: nat): (s: string)
    requires value < Pow16(len)
    ensures |s| == len && LowerHex(s)
  {
    if len == 0 then "" else FormatPrefix(value / 16, len - 1) + [HexDigit(value % 16)]
  }

  lemma {:induction false} ValueOfFormat(value: nat, len: nat)
    requires value < Pow16(len)
    ensures Value(FormatPrefix(value, len)) == value
  {
    if len > 0 {
      var s := FormatPrefix(value, len);
      assert s[..|s| - 1] == FormatPrefix(value / 16, len - 1);
      ValueOfFormat(value / 16, len - 1);
    }
  }

  lemma {:induction false} FormatOfValue(s: string)
    requires LowerHex(s)
    ensures FormatPrefix(Value(s), |s|) == s
  {
    if s != "" {
      var n := |s| - 1;
      FormatOfValue(s[..n]);
      NibbleInjective(HexDigit(HexNibble(s[n])), s[n]);
      assert s == s[..n] + [s[n]];
    }
  }

  lemma {:induction false} ValueOfCanonical(s: string)
    ensures Value(Canonical(s)) == Value(s)
  {
    if s != "" {
      ValueOfCanonical(s[..|s| - 1]);
      assert Canonical(s)[..|s| - 1] == Canonical(s[..|s| - 1]);
    }
  }

  /** A digest that starts with the given digits. */
  function DigestOf(digits: string): Digest {
    seq(16, i requires 0 <= i < 16 => 16 * DigitAt(digits, 2 * i) + DigitAt(digits, 2 * i + 1))
  }

  lemma NibbleOfDigest(digits: string, j: nat)
    requires j < MAX_PREFIX_LEN
    ensures DigestNibbleAt(DigestOf(digits), j) == DigitAt(digits, j)
  {
    var i := j / 2;
    assert j == 2 * i || j == 2 * i + 1;
  }

  lemma KeyOfDigest(text: string, digits: string)
    requires LowerHex(digits) && |digits| <= MAX_PREFIX_LEN
    ensures digits <= Keyword(text, DigestOf(digits)).Key()
  {
    var key := Keyword(text, DigestOf(digits)).Key();
    forall j: nat | j < |digits| ensures key[j] == digits[j] {
      NibbleOfDigest(digits, j);
      NibbleInjective(key[j], digits[j]);
    }
  }

  /** The number that bytes denote, the first the most significant. */
  function BytesValue(bytes: seq<Byte>): nat {
    if bytes == [] then 0 else 256 * BytesValue(bytes[..|bytes| - 1]) + bytes[|bytes| - 1]
  }

  lemma TwoDigits(s: string, n: nat)
    requires n + 2 <= |s|
    ensures Value(s[..n + 2]) == 256 * Value(s[..n]) + 16 * HexNibble(s[n]) + HexNibble(s[n + 1])
  {
    assert s[..n + 2][..n + 1] == s[..n + 1] && s[..n + 1][..n] == s[..n];
  }

  lemma OneByte(bytes: seq<Byte>, n: nat)
    requires n < |bytes|
    ensures BytesValue(bytes[..n + 1]) == 256 * BytesValue(bytes[..n]) + bytes[n]
  {
    assert bytes[..n + 1][..n] == bytes[..n];
  }

  lemma ByteDigits(keyword: Keyword, n: nat)
    requires n < 16
    ensures 16 * HexNibble(keyword.Key()[2 * n]) + HexNibble(keyword.Key()[2 * n + 1]) == keyword.digest[n]
  {
    assert keyword.Key()[2 * n] == HexDigit(DigestNibbleAt(keyword.digest, 2 * n));
    assert keyword.Key()[2 * n + 1] == HexDigit(DigestNibbleAt(keyword.digest, 2 * n + 1));
  }

  lemma {:induction false} KeyPrefixValue(keyword: Keyword, n: nat)
    requires n <= 16
    ensures Value(keyword.Key()[..2 * n]) == BytesValue(keyword.digest[..n])
  {
    if n > 0 {
      KeyPrefixValue(keyword, n - 1);
      TwoDigits(keyword.Key(), 2 * n - 2);
      OneByte(keyword.digest, n - 1);
      ByteDigits(keyword, n - 1);
    }
  }

  /** A key's digits are those of its digest, read as one number. */
  lemma KeyIsDigest(keyword: Keyword)
    ensures Value(keyword.Key()) == BytesValue(keyword.digest)
  {
    KeyPrefixValue(keyword, 16);
    assert keyword.Key()[..32] == keyword.Key() && keyword.digest[..16] == keyword.digest;
  }
}
