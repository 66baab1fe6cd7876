/**
  What the byte operations mean for text (src/workspace_instructions.rs:955-993): the
  boundaries at which bytes are cut are those between encoded characters, and the numbers
  written into notes read back.
*/
module TextEncoding {
  import opened Text
  import opened ByteText

  /** One character in UTF-8 (section 3 of RFC 3629). */
  function Encoded(c: char): (r: Bytes)
    ensures |r| == ScalarBytes(c)
  {
    var code := c as int;
    if code < 0x80 then [code as byte]
    else if code < 0x800 then [(0xC0 + code / 64) as byte, (0x80 + code % 64) as byte]
    else if code < 0x1_0000 then
      [(0xE0 + code / 4096) as byte, (0x80 + code / 64 % 64) as byte, (0x80 + code % 64) as byte]
    else
      [(0xF0 + code / 262_144) as byte, (0x80 + code / 4096 % 64) as byte, (0x80 + code / 64 % 64) as byte, (0x80 + code % 64) as byte]
  }

  function EncodedAll(s: string): (r: Bytes)
    ensures |r| == Utf8Length(s)
  {
    if s == "" then [] else Encoded(s[0]) + EncodedAll(s[1..])
  }

  /** Only the first byte of a character stands at a boundary. */
  lemma EncodedShape(c: char)
    ensures !(0x80 <= Encoded(c)[0] < 0xC0)
    ensures forall i :: 0 < i < |Encoded(c)| ==> 0x80 <= Encoded(c)[i] < 0xC0
  {
  }

  /** A boundary of encoded text cuts it after a whole number of characters. */
  lemma {:induction false} BoundaryCutsText(s: string, i: nat) returns (k: nat)
    requires i <= |EncodedAll(s)| && IsBoundary(EncodedAll(s), i)
    ensures k <= |s| && EncodedAll(s)[..i] == EncodedAll(s[..k])
  {
    k := 0;
    if i > 0 {
      var first, rest := Encoded(s[0]), EncodedAll(s[1..]);
      var n := |first|;
      EncodedShape(s[0]);
      assert forall j :: 0 <= j < n ==> EncodedAll(s)[j] == first[j];
      assert i >= n;
      assert i - n < |rest| ==> EncodedAll(s)[i] == rest[i - n];
      var more := BoundaryCutsText(s[1..], i - n);
      k := more + 1;
      assert s[..k][0] == s[0] && s[..k][1..] == s[1..][..more];
      assert (first + rest)[..i] == first + rest[..i - n];
    }
  }

  /** Between any two characters there is a boundary. */
  lemma {:induction false} CharactersEndAtBoundaries(s: string, k: nat)
    requires k <= |s|
    ensures |EncodedAll(s[..k])| <= |EncodedAll(s)| && IsBoundary(EncodedAll(s), |EncodedAll(s[..k])|)
  {
    if k > 0 {
      var first, rest := Encoded(s[0]), EncodedAll(s[1..]);
      CharactersEndAtBoundaries(s[1..], k - 1);
      assert s[..k][0] == s[0] && s[..k][1..] == s[1..][..k - 1];
      var i := |EncodedAll(s[1..][..k - 1])|;
      assert |EncodedAll(s[..k])| == |first| + i;
      if i == 0 && rest != [] {
        EncodedShape(s[1]);
        assert rest[0] == Encoded(s[1])[0] && EncodedAll(s)[|first|] == rest[0];
      } else if i < |rest| {
        assert EncodedAll(s)[|first| + i] == rest[i];
      }
    }
  }

  /** Truncated text is the longest run of whole characters that fits. */
  lemma {:induction false} TruncationKeepsCharacters(s: string, maximum: nat) returns (k: nat)
    ensures k <= |s| && EncodedAll(s)[..Floor(EncodedAll(s), maximum)] == EncodedAll(s[..k]) && Utf8Length(s[..k]) <= maximum
    ensures forall more :: k < more <= |s| ==> Utf8Length(s[..more]) > maximum
  {
    var cut := Floor(EncodedAll(s), maximum);
    k := BoundaryCutsText(s, cut);
    forall more | k < more <= |s| ensures Utf8Length(s[..more]) > maximum {
      CharactersEndAtBoundaries(s, more);
      LongerIsLonger(s, k, more);
    }
  }

  lemma {:induction false} LongerIsLonger(s: string, k: nat, more: nat)
    requires k < more <= |s|
    ensures |EncodedAll(s[..k])| < |EncodedAll(s[..more])|
  {
    assert s[..more][0] == s[0] && s[..more][1..] == s[1..][..more - 1];
    if k > 0 {
      assert s[..k][0] == s[0] && s[..k][1..] == s[1..][..k - 1];
      LongerIsLonger(s[1..], k - 1, more - 1);
    }
  }

  // ----- replacing -----

  predicate OccursAt(s: Bytes, from: Bytes, i: nat) {
    i + |from| <= |s| && s[i..i + |from|] == from
  }

  lemma OccursLater(s: Bytes, from: Bytes, j: nat)
    requires s != []
    ensures OccursAt(s, from, j + 1) <==> OccursAt(s[1..], from, j)
  {
    if j + 1 + |from| <= |s| {
      assert s[j + 1..j + 1 + |from|] == s[1..][j..j + |from|];
    }
  }

  /** Replacing puts the new text in place of the first occurrence and goes on after it; without one it changes nothing. */
  lemma {:induction false} ReplaceGoesOn(s: Bytes, from: Bytes, to: Bytes, i: nat)
    requires from != [] && forall j: nat :: j < i ==> !OccursAt(s, from, j)
    ensures OccursAt(s, from, i) ==> Replace(s, from, to) == s[..i] + to + Replace(s[i + |from|..], from, to)
    ensures i >= |s| ==> Replace(s, from, to) == s
  {
    if i > 0 && |s| >= |from| {
      var rest := s[1..];
      assert !OccursAt(s, from, 0);
      assert Replace(s, from, to) == [s[0]] + Replace(rest, from, to);
      forall j: nat | j < i - 1 ensures !OccursAt(rest, from, j) {
        OccursLater(s, from, j);
      }
      ReplaceGoesOn(rest, from, to, i - 1);
      OccursLater(s, from, i - 1);
      hide Replace, OccursAt;
      if i + |from| <= |s| {
        assert rest[i - 1 + |from|..] == s[i + |from|..] && s[..i] == [s[0]] + rest[..i - 1];
      }
    }
  }

  // ----- decimal numbers -----

  function Value(digits: Bytes): nat
    requires forall i :: 0 <= i < |digits| ==> IsDigit(digits[i])
  {
    if digits == [] then 0 else
    var last := digits[|digits| - 1];
    assert IsDigit(last);
    10 * Value(digits[..|digits| - 1]) + (last as int - 48)
  }

  lemma DigitsOnly(n: nat)
    ensures forall i :: 0 <= i < |Decimal(n)| ==> IsDigit(Decimal(n)[i])
  {
    assert forall i :: 0 <= i < |Decimal(n)| ==> Decimal(n)[i] in Decimal(n);
  }

  /** A number reads back from its digits, of which the first is zero only for zero. */
  lemma {:induction false} DecimalReadsBack(n: nat)
    ensures (DigitsOnly(n); Value(Decimal(n)) == n)
    ensures Decimal(n)[0] == 48 <==> n == 0
  {
    if n >= 10 {
      var digits := Decimal(n);
      DigitsOnly(n);
      DecimalReadsBack(n / 10);
      assert digits[..|digits| - 1] == Decimal(n / 10);
    }
  }
}
