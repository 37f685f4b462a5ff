/** `btoa` and `atob` of the browser and worker runtimes. `btoa` is the base64 encoding of
    RFC 4648 section 4 (with padding) over a string whose characters are all at most U+00FF;
    `atob` is the "forgiving-base64 decode" of the WHATWG Infra Standard, which removes ASCII
    whitespace, accepts a missing padding, and rejects any character outside the alphabet. */
module Base64 {
  import opened Types

  type Byte = x: int | 0 <= x < 256

  /** The character of the base64 alphabet (RFC 4648 section 4, Table 1) with index `i`. */
  function AlphabetChar(i: int): (c: char)
    requires 0 <= i < 64
    ensures IsAlphabetChar(c) && SextetOf(c) == i
  {
    if i < 26 then (65 + i) as char
    else if i < 52 then (97 + i - 26) as char
    else if i < 62 then (48 + i - 52) as char
    else if i == 62 then '+'
    else '/'
  }

  predicate IsAlphabetChar(c: char) {
    'A' <= c <= 'Z' || 'a' <= c <= 'z' || '0' <= c <= '9' || c == '+' || c == '/'
  }

  predicate AllAlphabet(s: string) {
    forall i :: 0 <= i < |s| ==> IsAlphabetChar(s[i])
  }

  /** The index of an alphabet character. */
  function SextetOf(c: char): (v: int)
    requires IsAlphabetChar(c)
    ensures 0 <= v < 64
  {
    if 'A' <= c <= 'Z' then c as int - 65
    else if 'a' <= c <= 'z' then c as int - 97 + 26
    else if '0' <= c <= '9' then c as int - 48 + 52
    else if c == '+' then 62
    else 63
  }

  /** Every character is at most U+00FF, as `btoa` demands. */
  predicate IsLatin1(s: string) {
    forall i :: 0 <= i < |s| ==> s[i] as int < 256
  }

  function ToBytes(s: string): (b: seq<Byte>)
    requires IsLatin1(s)
    ensures |b| == |s|
  {
    seq(|s|, i requires 0 <= i < |s| => s[i] as int)
  }

  function FromBytes(b: seq<Byte>): (s: string)
    ensures |s| == |b| && IsLatin1(s)
  {
    seq(|b|, i requires 0 <= i < |b| => b[i] as char)
  }

  type Sextet = x: int | 0 <= x < 64

  /** The encoded length of `n` bytes before padding. */
  function UnpaddedLength(n: nat): nat {
    4 * (n / 3) + (if n % 3 == 0 then 0 else n % 3 + 1)
  }

  /** Three bytes as four sextets, and a final one or two bytes as two or three sextets
      whose unused low bits are zero. */
  function ToSextets(b: seq<Byte>): (r: seq<Sextet>)
    ensures |r| % 4 != 1
  {
    if |b| == 0 then []
    else if |b| == 1 then [b[0] / 4, b[0] % 4 * 16]
    else if |b| == 2 then [b[0] / 4, b[0] % 4 * 16 + b[1] / 16, b[1] % 16 * 4]
    else [b[0] / 4, b[0] % 4 * 16 + b[1] / 16, b[1] % 16 * 4 + b[2] / 64, b[2] % 64] + ToSextets(b[3..])
  }

  /** The bytes a run of sextets stands for; the bits of a final partial group that do not
      fill a byte are discarded, as the forgiving decoder does. */
  function FromSextets(v: seq<Sextet>): seq<Byte>
    requires |v| % 4 != 1
  {
    if |v| == 0 then []
    else
      var b0: Byte := v[0] as int * 4 + v[1] as int / 16;
      if |v| == 2 then [b0]
      else
        var b1: Byte := v[1] as int % 16 * 16 + v[2] as int / 4;
        if |v| == 3 then [b0, b1]
        else
          var b2: Byte := v[2] as int % 4 * 64 + v[3] as int;
          [b0, b1, b2] + FromSextets(v[4..])
  }

  function SextetsToChars(v: seq<Sextet>): (r: string)
    ensures |r| == |v| && AllAlphabet(r)
  {
    seq(|v|, i requires 0 <= i < |v| => AlphabetChar(v[i]))
  }

  function CharsToSextets(d: string): (v: seq<Sextet>)
    requires AllAlphabet(d)
    ensures |v| == |d|
  {
    seq(|d|, i requires 0 <= i < |d| => SextetOf(d[i]))
  }

  /** Base64 of `b` without its trailing padding. */
  function EncodeGroups(b: seq<Byte>): (r: string)
    ensures AllAlphabet(r) && |r| % 4 != 1
  {
    SextetsToChars(ToSextets(b))
  }

  /** The bytes that a run of alphabet characters stands for. */
  function DecodeGroups(d: string): seq<Byte>
    requires AllAlphabet(d) && |d| % 4 != 1
  {
    FromSextets(CharsToSextets(d))
  }

  lemma {:induction false} SextetsLength(b: seq<Byte>)
    ensures |ToSextets(b)| == UnpaddedLength(|b|)
  {
    if |b| >= 3 {
      SextetsLength(b[3..]);
    }
  }

  lemma EncodeGroupsLength(b: seq<Byte>)
    ensures |EncodeGroups(b)| == UnpaddedLength(|b|)
  {
    SextetsLength(b);
  }

  /** The last sextet of the group of bytes `3k`..`3k+2` is the low six bits of its last byte. */
  lemma {:induction false} SextetAtGroupEnd(b: seq<Byte>, k: nat)
    requires 3 * k + 3 <= |b|
    ensures 4 * k + 3 < |ToSextets(b)| && ToSextets(b)[4 * k + 3] == b[3 * k + 2] % 64
  {
    if k > 0 {
      SextetAtGroupEnd(b[3..], k - 1);
      assert b[3..][3 * (k - 1) + 2] == b[3 * k + 2];
    }
  }

  /** A '~' (U+007E) that ends a group of three encodes to '+'. */
  lemma TildeEncodesToPlus(s: string, i: nat)
    requires IsLatin1(s) && i < |s| && i % 3 == 2 && s[i] == '~'
    ensures 4 * (i / 3) + 3 < |EncodeGroups(ToBytes(s))|
    ensures EncodeGroups(ToBytes(s))[4 * (i / 3) + 3] == '+'
  {
    SextetAtGroupEnd(ToBytes(s), i / 3);
    assert 3 * (i / 3) + 2 == i;
  }

  /** The '=' padding that completes the encoding of `n` bytes to a multiple of four. */
  function Padding(n: nat): string {
    if n % 3 == 1 then "==" else if n % 3 == 2 then "=" else ""
  }

  /** `btoa(s)`; `None` is the InvalidCharacterError thrown for a character above U+00FF. */
  function Btoa(s: string): (r: Option<string>)
    ensures r.Some? <==> IsLatin1(s)
  {
    if IsLatin1(s) then Some(EncodeGroups(ToBytes(s)) + Padding(|s|)) else None
  }

  /** TAB, LF, FF, CR and SPACE. */
  predicate IsAsciiWhiteSpace(c: char) {
    c == '\t' || c == '\n' || c as int == 12 || c == '\r' || c == ' '
  }

  function RemoveAsciiWhiteSpace(s: string): (r: string)
    ensures forall i :: 0 <= i < |r| ==> !IsAsciiWhiteSpace(r[i])
    ensures forall c :: c in s && !IsAsciiWhiteSpace(c) ==> c in r
    ensures (forall i :: 0 <= i < |s| ==> !IsAsciiWhiteSpace(s[i])) ==> r == s
  {
    if s == [] then []
    else if IsAsciiWhiteSpace(s[0]) then RemoveAsciiWhiteSpace(s[1..])
    else [s[0]] + RemoveAsciiWhiteSpace(s[1..])
  }

  /** When the length is a multiple of four, one or two final '=' are removed. */
  function DropPadding(d: string): (r: string)
    ensures forall c :: c in d && c != '=' ==> c in r
  {
    if |d| % 4 == 0 && |d| >= 2 && d[|d| - 2..] == "==" then d[..|d| - 2]
    else if |d| % 4 == 0 && |d| >= 1 && d[|d| - 1] == '=' then d[..|d| - 1]
    else d
  }

  /** `atob(s)`; `None` is the InvalidCharacterError it throws. */
  function Atob(s: string): (r: Option<string>)
    ensures r.Some? ==> IsLatin1(r.value)
    ensures r.Some? ==> forall c :: c in s ==> IsAlphabetChar(c) || IsAsciiWhiteSpace(c) || c == '='
  {
    var d := DropPadding(RemoveAsciiWhiteSpace(s));
    if |d| % 4 == 1 || !AllAlphabet(d) then None
    else Some(FromBytes(DecodeGroups(d)))
  }

  lemma TripleArithmetic(b0: Byte, b1: Byte, b2: Byte)
    ensures b0 / 4 * 4 + (b0 % 4 * 16 + b1 / 16) / 16 == b0
    ensures (b0 % 4 * 16 + b1 / 16) % 16 * 16 + (b1 % 16 * 4 + b2 / 64) / 4 == b1
    ensures (b1 % 16 * 4 + b2 / 64) % 4 * 64 + b2 % 64 == b2
  {
  }

  lemma PairArithmetic(b0: Byte, b1: Byte)
    ensures b0 / 4 * 4 + (b0 % 4 * 16 + b1 / 16) / 16 == b0
    ensures (b0 % 4 * 16 + b1 / 16) % 16 * 16 + (b1 % 16 * 4) / 4 == b1
  {
  }

  /** Sextets back to bytes undoes bytes to sextets, group by group. */
  lemma {:induction false} SextetsRoundTrip(b: seq<Byte>)
    ensures FromSextets(ToSextets(b)) == b
  {
    if |b| == 1 {
      assert (b[0] % 4 * 16) / 16 == b[0] % 4;
    } else if |b| == 2 {
      PairArithmetic(b[0], b[1]);
    } else if |b| >= 3 {
      var v := ToSextets(b);
      var rest := b[3..];
      assert v[4..] == ToSextets(rest);
      TripleArithmetic(b[0], b[1], b[2]);
      SextetsRoundTrip(rest);
      assert b == [b[0], b[1], b[2]] + rest;
    }
  }

  lemma CharsRoundTrip(v: seq<Sextet>)
    ensures CharsToSextets(SextetsToChars(v)) == v
  {
  }

  /** Decoding undoes encoding. */
  lemma DecodeEncodeGroups(b: seq<Byte>)
    ensures DecodeGroups(EncodeGroups(b)) == b
  {
    CharsRoundTrip(ToSextets(b));
    SextetsRoundTrip(b);
  }

  lemma BytesRoundTrip(s: string)
    requires IsLatin1(s)
    ensures FromBytes(ToBytes(s)) == s
  {
  }

  /** Alphabet text passes the decoder's whitespace and padding steps unchanged. */
  lemma AlphabetTextKept(e: string)
    requires AllAlphabet(e)
    ensures DropPadding(RemoveAsciiWhiteSpace(e)) == e
  {
    assert forall i :: 0 <= i < |e| ==> !IsAsciiWhiteSpace(e[i]);
    assert e != [] ==> IsAlphabetChar(e[|e| - 1]);
  }

  /** The decoder accepts the encoding without its padding. */
  lemma AtobUnpadded(s: string)
    requires IsLatin1(s)
    ensures Atob(EncodeGroups(ToBytes(s))) == Some(s)
  {
    var e := EncodeGroups(ToBytes(s));
    AlphabetTextKept(e);
    DecodeEncodeGroups(ToBytes(s));
    BytesRoundTrip(s);
  }

  /** Alphabet text followed by '=' padding has no ASCII whitespace to remove. */
  lemma NoWhiteSpaceInPadded(e: string, p: string)
    requires AllAlphabet(e) && forall i :: 0 <= i < |p| ==> p[i] == '='
    ensures RemoveAsciiWhiteSpace(e + p) == e + p
  {
    var t := e + p;
    forall i | 0 <= i < |t| ensures !IsAsciiWhiteSpace(t[i]) {
      if i < |e| { assert t[i] == e[i]; } else { assert t[i] == p[i - |e|]; }
    }
  }

  /** The forgiving decoder drops exactly the padding that `btoa` adds. */
  lemma DropPaddingOfPadded(e: string, n: nat)
    requires AllAlphabet(e) && |e| == UnpaddedLength(n)
    ensures DropPadding(e + Padding(n)) == e
  {
    var t := e + Padding(n);
    if n % 3 == 1 {
      assert t[|t| - 2..] == "==";
      assert t[..|t| - 2] == e;
    } else if n % 3 == 2 {
      assert t[|t| - 2] == e[|e| - 1];
      assert t[..|t| - 1] == e;
    } else {
      assert t == e;
      assert e != [] ==> IsAlphabetChar(e[|e| - 1]);
    }
  }

  /** `atob(btoa(s)) == s`. */
  lemma AtobBtoa(s: string)
    requires IsLatin1(s)
    ensures Btoa(s).Some? && Atob(Btoa(s).value) == Some(s)
  {
    var e := EncodeGroups(ToBytes(s));
    EncodeGroupsLength(ToBytes(s));
    NoWhiteSpaceInPadded(e, Padding(|s|));
    DropPaddingOfPadded(e, |s|);
    DecodeEncodeGroups(ToBytes(s));
    BytesRoundTrip(s);
  }

  /** A character that is neither in the alphabet, nor whitespace, nor '=' makes `atob` throw. */
  lemma AtobRejects(s: string, c: char)
    requires c in s && !IsAlphabetChar(c) && !IsAsciiWhiteSpace(c) && c != '='
    ensures Atob(s).None?
  {
    assert c in DropPadding(RemoveAsciiWhiteSpace(s));
  }
}
