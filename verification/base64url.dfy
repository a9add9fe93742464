/** `base64.RawURLEncoding.DecodeString` from Go's `encoding/base64`: the
    URL- and file-name-safe alphabet of section 5 of RFC 4648, without
    padding.  As Go's decoder does, this one skips carriage returns and line
    feeds wherever they occur, refuses every other character outside the
    alphabet (the pad character `=` included), refuses a last group of a
    single character, and does not check that the unused low bits of a short
    last group are zero (the encoding is not in strict mode).  `Encode` is
    the matching encoder, stated to pin down what `Decode` computes. */
module Base64Url {
  import opened Wrappers

  type byte = x: int | 0 <= x < 256
  type sextet = x: int | 0 <= x < 64

  /** The value of an alphabet character: A-Z, a-z, 0-9, '-', '_'. */
  function CharValue(c: char): Option<sextet> {
    if 'A' <= c <= 'Z' then Some(c as int - 'A' as int)
    else if 'a' <= c <= 'z' then Some(c as int - 'a' as int + 26)
    else if '0' <= c <= '9' then Some(c as int - '0' as int + 52)
    else if c == '-' then Some(62)
    else if c == '_' then Some(63)
    else None
  }

  /** The alphabet character of a 6-bit value. */
  function AlphabetChar(v: sextet): char {
    if v < 26 then ('A' as int + v) as char
    else if v < 52 then ('a' as int + v - 26) as char
    else if v < 62 then ('0' as int + v - 52) as char
    else if v == 62 then '-'
    else '_'
  }

  /** `AlphabetChar` and `CharValue` are inverse: the 64 characters of the
      alphabet are exactly the images of the 64 values, one each. */
  lemma AlphabetBijection(v: sextet, c: char)
    ensures CharValue(AlphabetChar(v)) == Some(v)
    ensures CharValue(c).Some? ==> AlphabetChar(CharValue(c).value) == c
  {
  }

  predicate IsNewline(c: char) {
    c == '\r' || c == '\n'
  }

  /** The input with every '\r' and '\n' dropped. */
  function StripNewlines(s: string): (r: string)
    ensures forall c :: c in r <==> c in s && !IsNewline(c)
    ensures |r| <= |s|
  {
    if s == [] then []
    else if IsNewline(s[0]) then StripNewlines(s[1..])
    else [s[0]] + StripNewlines(s[1..])
  }

  /** Decoding: newlines are skipped, then groups of four characters give
      three bytes, a last group of three gives two and of two gives one. */
  function Decode(s: string): (r: Option<seq<byte>>)
    ensures r.Some? <==> InAlphabet(StripNewlines(s)) && |StripNewlines(s)| % 4 != 1
    ensures r.Some? ==> |r.value| == |StripNewlines(s)| * 3 / 4
  {
    DecodeGroupsSucceedsIff(StripNewlines(s));
    DecodeGroups(StripNewlines(s))
  }

  function DecodeGroups(s: string): (r: Option<seq<byte>>)
    ensures r.Some? ==> |r.value| == |s| * 3 / 4
    decreases |s|
  {
    if |s| == 0 then Some([])
    else
      var n := if |s| < 4 then |s| else 4;
      match DecodeGroup(s[..n])
      case None => None
      case Some(g) =>
        match DecodeGroups(s[n..])
        case None => None
        case Some(rest) => Some(g + rest)
  }

  predicate InAlphabet(g: string) {
    forall c :: c in g ==> CharValue(c).Some?
  }

  /** One group of one to four characters: a lone character is refused. */
  function DecodeGroup(g: string): (r: Option<seq<byte>>)
    requires 1 <= |g| <= 4
    ensures r.Some? <==> |g| > 1 && InAlphabet(g)
    ensures r.Some? ==> |r.value| == |g| - 1
  {
    if |g| == 1 || !InAlphabet(g) then None
    else
      assert g[0] in g && g[1] in g;
      var a, b := CharValue(g[0]).value, CharValue(g[1]).value;
      if |g| == 2 then Some([Hi(a, b)])
      else
        assert g[2] in g;
        var c := CharValue(g[2]).value;
        if |g| == 3 then Some([Hi(a, b), Mid(b, c)])
        else
          assert g[3] in g;
          var d := CharValue(g[3]).value;
          Some([Hi(a, b), Mid(b, c), Lo(c, d)])
  }

  // The three bytes packed into the four 6-bit values a b c d.
  function Hi(a: sextet, b: sextet): byte { a * 4 + b / 16 }
  function Mid(b: sextet, c: sextet): byte { (b % 16) * 16 + c / 4 }
  function Lo(c: sextet, d: sextet): byte { (c % 4) * 64 + d }

  /** The independent statement of when `Decode` succeeds: every character
      other than a newline belongs to the alphabet, and the remaining
      characters do not leave a single one over after the groups of four. */
  predicate Decodable(s: string) {
    (forall c :: c in s ==> IsNewline(c) || CharValue(c).Some?)
    && |StripNewlines(s)| % 4 != 1
  }

  /** Encoding without padding: three bytes give four characters, a last
      pair three and a last single byte two. */
  function Encode(b: seq<byte>): (s: string)
    ensures |s| == (|b| * 4 + 2) / 3
    ensures InAlphabet(s)
    decreases |b|
  {
    if |b| == 0 then ""
    else
      var n := if |b| < 3 then |b| else 3;
      EncodeGroup(b[..n]) + Encode(b[n..])
  }

  /** One group of one to three bytes, zero bits filling the last character. */
  function EncodeGroup(g: seq<byte>): (s: string)
    requires 1 <= |g| <= 3
    ensures |s| == |g| + 1
    ensures InAlphabet(s)
  {
    AlphabetBijection(0, 'A');
    var b0 := g[0];
    var b1 := if |g| > 1 then g[1] else 0;
    var b2 := if |g| > 2 then g[2] else 0;
    var chars := [AlphabetChar(b0 / 4), AlphabetChar((b0 % 4) * 16 + b1 / 16),
                  AlphabetChar((b1 % 16) * 4 + b2 / 64), AlphabetChar(b2 % 64)];
    AlphabetBijection(b0 / 4, 'A');
    AlphabetBijection((b0 % 4) * 16 + b1 / 16, 'A');
    AlphabetBijection((b1 % 16) * 4 + b2 / 64, 'A');
    AlphabetBijection(b2 % 64, 'A');
    chars[..|g| + 1]
  }

  lemma {:induction false} StripNewlinesAlphabet(s: string)
    requires InAlphabet(s)
    ensures StripNewlines(s) == s
    decreases |s|
  {
    if s != [] {
      assert s[0] in s;
      assert forall c :: c in s[1..] ==> c in s;
      StripNewlinesAlphabet(s[1..]);
      assert s == [s[0]] + s[1..];
    }
  }

  /** Decoding what `Encode` produced gives the bytes back. */
  lemma DecodeEncode(b: seq<byte>)
    ensures Decode(Encode(b)) == Some(b)
  {
    StripNewlinesAlphabet(Encode(b));
    DecodeGroupsEncode(b);
  }

  /** The arithmetic of one group: the four 6-bit values `EncodeGroup` makes
      of three bytes give the three bytes back. */
  lemma GroupRoundTrip(b0: byte, b1: byte, b2: byte)
    ensures Hi(b0 / 4, (b0 % 4) * 16 + b1 / 16) == b0
    ensures Mid((b0 % 4) * 16 + b1 / 16, (b1 % 16) * 4 + b2 / 64) == b1
    ensures Lo((b1 % 16) * 4 + b2 / 64, b2 % 64) == b2
  {
  }

  lemma DecodeEncodeGroup(g: seq<byte>)
    requires 1 <= |g| <= 3
    ensures DecodeGroup(EncodeGroup(g)) == Some(g)
  {
    if |g| == 1 {
      DecodeEncodeOne(g[0]);
      assert g == [g[0]];
    } else if |g| == 2 {
      DecodeEncodeTwo(g[0], g[1]);
      assert g == [g[0], g[1]];
    } else {
      DecodeEncodeThree(g[0], g[1], g[2]);
      assert g == [g[0], g[1], g[2]];
    }
  }

  /** The characters `EncodeGroup` writes for bytes b0 b1 b2 carry the four
      6-bit values of those bytes. */
  lemma EncodeGroupValues(g: seq<byte>, b0: byte, b1: byte, b2: byte)
    requires 1 <= |g| <= 3 && g[0] == b0
    requires b1 == (if |g| > 1 then g[1] else 0) && b2 == (if |g| > 2 then g[2] else 0)
    ensures var s := EncodeGroup(g);
      CharValue(s[0]) == Some(b0 / 4)
      && CharValue(s[1]) == Some((b0 % 4) * 16 + b1 / 16)
      && (|g| > 1 ==> CharValue(s[2]) == Some((b1 % 16) * 4 + b2 / 64))
      && (|g| > 2 ==> CharValue(s[3]) == Some(b2 % 64))
  {
    AlphabetBijection(b0 / 4, 'A');
    AlphabetBijection((b0 % 4) * 16 + b1 / 16, 'A');
    AlphabetBijection((b1 % 16) * 4 + b2 / 64, 'A');
    AlphabetBijection(b2 % 64, 'A');
  }

  lemma DecodeEncodeOne(b0: byte)
    ensures DecodeGroup(EncodeGroup([b0])) == Some([b0])
  {
    var s := EncodeGroup([b0]);
    EncodeGroupValues([b0], b0, 0, 0);
    GroupRoundTrip(b0, 0, 0);
    assert DecodeGroup(s) == Some([Hi(b0 / 4, (b0 % 4) * 16)]);
  }

  lemma DecodeEncodeTwo(b0: byte, b1: byte)
    ensures DecodeGroup(EncodeGroup([b0, b1])) == Some([b0, b1])
  {
    var s := EncodeGroup([b0, b1]);
    EncodeGroupValues([b0, b1], b0, b1, 0);
    GroupRoundTrip(b0, b1, 0);
    var c1: sextet := (b0 % 4) * 16 + b1 / 16;
    var c2: sextet := (b1 % 16) * 4;
    assert DecodeGroup(s) == Some([Hi(b0 / 4, c1), Mid(c1, c2)]);
  }

  lemma DecodeEncodeThree(b0: byte, b1: byte, b2: byte)
    ensures DecodeGroup(EncodeGroup([b0, b1, b2])) == Some([b0, b1, b2])
  {
    var s := EncodeGroup([b0, b1, b2]);
    EncodeGroupValues([b0, b1, b2], b0, b1, b2);
    GroupRoundTrip(b0, b1, b2);
    var c1: sextet := (b0 % 4) * 16 + b1 / 16;
    var c2: sextet := (b1 % 16) * 4 + b2 / 64;
    var c3: sextet := b2 % 64;
    assert DecodeGroup(s) == Some([Hi(b0 / 4, c1), Mid(c1, c2), Lo(c2, c3)]);
  }

  lemma {:induction false} DecodeGroupsEncode(b: seq<byte>)
    ensures DecodeGroups(Encode(b)) == Some(b)
    decreases |b|
  {
    if |b| > 0 {
      var n := if |b| < 3 then |b| else 3;
      var s := Encode(b);
      var g := EncodeGroup(b[..n]);
      assert s == g + Encode(b[n..]);
      var m := if |s| < 4 then |s| else 4;
      assert m == n + 1;
      assert s[..m] == g;
      assert s[m..] == Encode(b[n..]);
      DecodeEncodeGroup(b[..n]);
      DecodeGroupsEncode(b[n..]);
      assert b == b[..n] + b[n..];
    }
  }

  /** `Decode` succeeds exactly on `Decodable` input. */
  lemma DecodeSucceedsIff(s: string)
    ensures Decode(s).Some? <==> Decodable(s)
  {
    DecodeGroupsSucceedsIff(StripNewlines(s));
  }

  lemma {:induction false} DecodeGroupsSucceedsIff(s: string)
    ensures DecodeGroups(s).Some? <==> InAlphabet(s) && |s| % 4 != 1
    decreases |s|
  {
    if 0 < |s| < 4 {
      DecodeGroupsUnfold(s);
      assert s[..|s|] == s;
    } else if |s| >= 4 {
      var t := s[4..];
      DecodeGroupsUnfold(s);
      DecodeGroupsSucceedsIff(t);
      InAlphabetConcat(s[..4], t);
      assert s == s[..4] + t;
      assert |t| % 4 == |s| % 4;
      assert DecodeGroup(s[..4]).Some? <==> InAlphabet(s[..4]);
      assert DecodeGroups(t).Some? <==> InAlphabet(t) && |t| % 4 != 1;
    }
  }

  /** One step of `DecodeGroups`: it succeeds when its first group and the
      rest both do. */
  lemma DecodeGroupsUnfold(s: string)
    requires |s| > 0
    ensures var n := if |s| < 4 then |s| else 4;
      DecodeGroups(s).Some? <==> DecodeGroup(s[..n]).Some? && DecodeGroups(s[n..]).Some?
  {
  }

  lemma InAlphabetConcat(a: string, b: string)
    ensures InAlphabet(a + b) <==> InAlphabet(a) && InAlphabet(b)
  {
    assert forall c :: c in a + b <==> c in a || c in b;
  }

  /** Removing newlines works piecewise: the characters of each part keep
      their order and the parts stay in theirs. */
  lemma {:induction false} StripNewlinesAppend(a: string, b: string)
    ensures StripNewlines(a + b) == StripNewlines(a) + StripNewlines(b)
    decreases |a|
  {
    if a == [] {
      assert a + b == b;
    } else {
      assert (a + b)[0] == a[0];
      assert (a + b)[1..] == a[1..] + b;
      StripNewlinesAppend(a[1..], b);
    }
  }

  /** A CR or LF anywhere in the input changes nothing about the result. */
  lemma NewlineIgnored(a: string, b: string, c: char)
    requires IsNewline(c)
    ensures Decode(a + [c] + b) == Decode(a + b)
  {
    assert [c][1..] == [];
    assert StripNewlines([c]) == [];
    StripNewlinesAppend(a, [c]);
    StripNewlinesAppend(a + [c], b);
    StripNewlinesAppend(a, b);
    assert StripNewlines(a + [c] + b) == StripNewlines(a + b);
  }

  /** Decoding is not strict: in a last group of two characters only the
      top two bits of the second one reach the byte, so inputs that differ
      in its low four bits decode alike ("AB" is read as "AA"). */
  lemma TrailingBitsIgnored(c0: char, c1: char, c2: char)
    requires CharValue(c0).Some? && CharValue(c1).Some? && CharValue(c2).Some?
    requires CharValue(c1).value / 16 == CharValue(c2).value / 16
    ensures Decode([c0, c1]).Some?
    ensures Decode([c0, c1]) == Decode([c0, c2])
  {
    StripNewlinesAlphabet([c0, c1]);
    StripNewlinesAlphabet([c0, c2]);
    assert [c0, c1][..2] == [c0, c1] && [c0, c1][2..] == [];
    assert [c0, c2][..2] == [c0, c2] && [c0, c2][2..] == [];
  }
}
