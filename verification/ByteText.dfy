/** UTF-8 text as bytes: decimal numbers, joining, character boundaries, replacement and framing. */
module ByteText {

  newtype byte = n: int | 0 <= n < 256

  type Bytes = seq<byte>

  function Join(parts: seq<Bytes>, separator: Bytes): Bytes {
    if parts == [] then [] else if |parts| == 1 then parts[0]
    else parts[0] + separator + Join(parts[1..], separator)
  }

  lemma JoinTwo(a: Bytes, b: Bytes, separator: Bytes)
    ensures Join([a, b], separator) == a + separator + b
  {
    assert [a, b][1..] == [b];
  }

  lemma JoinThree(a: Bytes, b: Bytes, c: Bytes, separator: Bytes)
    ensures Join([a, b, c], separator) == a + separator + (b + separator + c)
  {
    assert [a, b, c][1..] == [b, c];
    JoinTwo(b, c, separator);
  }

  // ----- the order of byte strings -----

  predicate BytesAtMost(a: Bytes, b: Bytes) {
    a == [] || (b != [] && (a[0] < b[0] || (a[0] == b[0] && BytesAtMost(a[1..], b[1..]))))
  }

  lemma AtMostTotal(a: Bytes, b: Bytes)
    ensures BytesAtMost(a, b) || BytesAtMost(b, a)
  {
    if a != [] && b != [] && a[0] == b[0] {
      AtMostTotal(a[1..], b[1..]);
    }
  }

  lemma {:induction false} AtMostAntisymmetric(a: Bytes, b: Bytes)
    requires BytesAtMost(a, b) && BytesAtMost(b, a)
    ensures a == b
    decreases |a|
  {
    if a != [] {
      AtMostAntisymmetric(a[1..], b[1..]);
      assert a == [a[0]] + a[1..] && b == [b[0]] + b[1..];
    }
  }

  lemma {:induction false} AtMostTransitive(a: Bytes, b: Bytes, c: Bytes)
    requires BytesAtMost(a, b) && BytesAtMost(b, c)
    ensures BytesAtMost(a, c)
    decreases |a|
  {
    if a != [] && a[0] == b[0] == c[0] {
      AtMostTransitive(a[1..], b[1..], c[1..]);
    }
  }

  // ----- decimal numbers -----

  predicate IsDigit(b: byte) {
    48 <= b <= 57
  }

  function Decimal(n: nat): (r: Bytes)
    ensures r != [] && forall b :: b in r ==> IsDigit(b)
  {
    var digit := (48 + n % 10) as byte;
    if n < 10 then [digit] else Decimal(n / 10) + [digit]
  }

  lemma {:induction false} DecimalLengthMonotone(m: nat, n: nat)
    requires m <= n
    ensures |Decimal(m)| <= |Decimal(n)|
    decreases n
  {
    if 10 <= m {
      DecimalLengthMonotone(m / 10, n / 10);
    }
  }

  // ----- character boundaries (section 3 of RFC 3629) -----

  /** Continuation bytes are 10xxxxxx; every other byte starts a character. */
  predicate IsBoundary(s: Bytes, i: nat) {
    i == 0 || i == |s| || (i < |s| && !(0x80 <= s[i] < 0xC0))
  }

  /** The last character boundary not after `maximum`. */
  function Floor(s: Bytes, maximum: nat): (r: nat)
    ensures r <= maximum && r <= |s| && IsBoundary(s, r)
    ensures forall j :: r < j <= maximum && j <= |s| ==> !IsBoundary(s, j)
    decreases maximum
  {
    if |s| <= maximum then |s|
    else if IsBoundary(s, maximum) then maximum
    else Floor(s, maximum - 1)
  }

  method TruncateUtf8(value: Bytes, maximum: nat) returns (r: Bytes)
    ensures r == value[..Floor(value, maximum)]
  {
    if |value| <= maximum {
      return value;
    }
    var end := maximum;
    while end > 0 && !IsBoundary(value, end)
      invariant 0 <= end <= maximum
      invariant Floor(value, end) == Floor(value, maximum)
    {
      end := end - 1;
    }
    r := value[..end];
  }

  // ----- replacing -----

  /** Non-overlapping replacement from left to right. */
  function Replace(s: Bytes, from: Bytes, to: Bytes): Bytes
    requires from != []
    decreases |s|
  {
    if |s| < |from| then s
    else if s[..|from|] == from then to + Replace(s[|from|..], from, to)
    else [s[0]] + Replace(s[1..], from, to)
  }

  lemma {:induction false} ReplaceMonotone(a: Bytes, b: Bytes, from: Bytes, to: Bytes)
    requires a <= b && 0 < |from| <= |to|
    ensures |a| <= |Replace(a, from, to)| <= |Replace(b, from, to)|
    decreases |b|
  {
    if |b| < |from| {
    } else if |a| < |from| {
      if b[..|from|] == from {
        ReplaceMonotone([], b[|from|..], from, to);
      } else {
        ReplaceMonotone(if a == [] then [] else a[1..], b[1..], from, to);
      }
    } else {
      assert a[..|from|] == b[..|from|];
      if a[..|from|] == from {
        ReplaceMonotone(a[|from|..], b[|from|..], from, to);
      } else {
        ReplaceMonotone(a[1..], b[1..], from, to);
      }
    }
  }

  /** A byte foreign to the needle separates two independent replacements. */
  lemma {:induction false} ReplaceSplits(a: Bytes, x: byte, b: Bytes, from: Bytes, to: Bytes)
    requires from != [] && x !in from
    ensures Replace(a + [x] + b, from, to) == Replace(a, from, to) + [x] + Replace(b, from, to)
    decreases |a|
  {
    var s, n := a + [x] + b, |from|;
    if |s| < n {
    } else if n <= |a| {
      assert s[..n] == a[..n];
      if a[..n] == from {
        assert s[n..] == a[n..] + [x] + b;
        ReplaceSplits(a[n..], x, b, from, to);
      } else {
        assert s[1..] == a[1..] + [x] + b;
        ReplaceSplits(a[1..], x, b, from, to);
      }
    } else {
      assert s[..n][|a|] == x;
      if a == [] {
        assert s[1..] == b;
      } else {
        assert s[1..] == a[1..] + [x] + b;
        ReplaceSplits(a[1..], x, b, from, to);
      }
    }
  }

  lemma {:induction false} ReplaceUnchanged(s: Bytes, from: Bytes, to: Bytes)
    requires from != [] && from[0] !in s
    ensures Replace(s, from, to) == s
    decreases |s|
  {
    if |from| <= |s| {
      assert s[..|from|][0] == s[0];
      assert s[0] in s;
      ReplaceUnchanged(s[1..], from, to);
    }
  }

  // ----- replacing a tag by an escaped one -----

  predicate OccursAt(s: Bytes, needle: Bytes, i: nat) {
    i + |needle| <= |s| && forall k :: 0 <= k < |needle| ==> s[i + k] == needle[k]
  }

  /** Both start with the same opener, which occurs nowhere else, and differ right after it. */
  predicate Escapes(from: Bytes, to: Bytes) {
    && 2 <= |from| <= |to| && to[0] == from[0] && to[1] != from[1]
    && from[0] !in from[1..] && from[0] !in to[1..]
  }

  lemma ShiftOccurrence(prefix: Bytes, s: Bytes, needle: Bytes, i: nat)
    requires |prefix| <= i
    ensures OccursAt(prefix + s, needle, i) ==> OccursAt(s, needle, i - |prefix|)
  {
    if OccursAt(prefix + s, needle, i) {
      forall k | 0 <= k < |needle| ensures s[i - |prefix| + k] == needle[k] {
        assert (prefix + s)[i + k] == s[i - |prefix| + k];
      }
    }
  }

  lemma PrefixOfCons(p: Bytes, x: byte, rest: Bytes)
    requires p != []
    ensures p <= [x] + rest <==> p[0] == x && p[1..] <= rest
  {
    var whole := [x] + rest;
    assert whole[1..] == rest;
    if p[0] == x && p[1..] <= rest {
      assert p == [x] + p[1..];
      assert forall k :: 0 <= k < |p| ==> p[k] == whole[k];
    }
  }

  lemma OccurrenceIsPrefix(s: Bytes, needle: Bytes)
    ensures OccursAt(s, needle, 0) <==> needle <= s
  {
    if OccursAt(s, needle, 0) {
      assert forall k :: 0 <= k < |needle| ==> s[0 + k] == needle[k];
    }
  }

  /** A stretch without the opener is left exactly as it was. */
  lemma {:induction false} ReplaceKeepsPlainPrefix(s: Bytes, p: Bytes, from: Bytes, to: Bytes)
    requires Escapes(from, to) && p <= Replace(s, from, to) && from[0] !in p
    ensures p <= s
    decreases |p|
  {
    if p != [] && |from| <= |s| {
      assert p[0] == Replace(s, from, to)[0] && p[0] in p;
      assert s[..|from|] != from;
      PrefixOfCons(p, s[0], Replace(s[1..], from, to));
      ReplaceKeepsPlainPrefix(s[1..], p[1..], from, to);
      PrefixOfCons(p, s[0], s[1..]);
      assert s == [s[0]] + s[1..];
    }
  }

  /** A copied byte cannot start an occurrence that the input did not have. */
  lemma CopiedByteOpensNothing(s: Bytes, from: Bytes, to: Bytes)
    requires Escapes(from, to) && |from| <= |s| && s[..|from|] != from
    ensures !OccursAt(Replace(s, from, to), from, 0)
  {
    OccurrenceIsPrefix(Replace(s, from, to), from);
    PrefixOfCons(from, s[0], Replace(s[1..], from, to));
    PrefixOfCons(from, s[0], s[1..]);
    assert s == [s[0]] + s[1..];
    if from <= Replace(s, from, to) {
      ReplaceKeepsPlainPrefix(s[1..], from[1..], from, to);
    }
  }

  /** No occurrence survives. */
  lemma {:induction false} ReplaceRemoves(s: Bytes, i: nat, from: Bytes, to: Bytes)
    requires Escapes(from, to)
    ensures !OccursAt(Replace(s, from, to), from, i)
    decreases |s|
  {
    var r := Replace(s, from, to);
    if |s| < |from| {
    } else if s[..|from|] == from {
      if |to| <= i {
        ShiftOccurrence(to, Replace(s[|from|..], from, to), from, i);
        ReplaceRemoves(s[|from|..], i - |to|, from, to);
      } else if i == 0 {
        assert r[0 + 1] == to[1] != from[1];
      } else {
        assert r[i] == to[i] == to[1..][i - 1] != from[0];
      }
    } else if i == 0 {
      CopiedByteOpensNothing(s, from, to);
    } else {
      ShiftOccurrence([s[0]], Replace(s[1..], from, to), from, i);
      ReplaceRemoves(s[1..], i - 1, from, to);
    }
  }

  /** A replacement at most twice as long at most doubles the text. */
  lemma {:induction false} ReplaceAtMostDoubles(s: Bytes, from: Bytes, to: Bytes)
    requires from != [] && |to| <= 2 * |from|
    ensures |Replace(s, from, to)| <= 2 * |s|
    decreases |s|
  {
    if s != [] {
      if from <= s {
        ReplaceAtMostDoubles(s[|from|..], from, to);
      } else {
        ReplaceAtMostDoubles(s[1..], from, to);
      }
    }
  }

  // ----- the system-reminder frame -----

  /** `</system-reminder>`, its escaped form `<\/system-reminder>`, and the opening line. */
  const CLOSING_TAG: Bytes := [60, 47, 115, 121, 115, 116, 101, 109, 45, 114, 101, 109, 105, 110, 100, 101, 114, 62]
  const ESCAPED_TAG: Bytes := [60, 92, 47, 115, 121, 115, 116, 101, 109, 45, 114, 101, 109, 105, 110, 100, 101, 114, 62]
  const OPEN: Bytes := [60, 115, 121, 115, 116, 101, 109, 45, 114, 101, 109, 105, 110, 100, 101, 114, 62, 10]
  const NEWLINE: byte := 10

  function Escape(s: Bytes): Bytes {
    Replace(s, CLOSING_TAG, ESCAPED_TAG)
  }

  function Frame(body: Bytes): Bytes {
    OPEN + (Escape(body) + ([NEWLINE] + CLOSING_TAG))
  }

  lemma TagFacts()
    ensures Escapes(CLOSING_TAG, ESCAPED_TAG)
    ensures NEWLINE !in CLOSING_TAG
    ensures |OPEN| == |CLOSING_TAG| && OPEN[|OPEN| - 1] == NEWLINE
  {
  }

  lemma FrameLength(body: Bytes)
    ensures |Frame(body)| <= 2 * |body| + 37
  {
    ReplaceAtMostDoubles(body, CLOSING_TAG, ESCAPED_TAG);
  }

  /** No occurrence covers a byte foreign to the needle. */
  lemma OccurrenceAvoids(s: Bytes, needle: Bytes, i: nat, foreign: nat)
    requires foreign < |s| && s[foreign] !in needle && i <= foreign < i + |needle|
    ensures !OccursAt(s, needle, i)
  {
    var k := foreign - i;
    assert needle[k] in needle && s[i + k] == s[foreign];
  }

  lemma OccurrenceInFront(s: Bytes, suffix: Bytes, needle: Bytes, i: nat)
    requires OccursAt(s + suffix, needle, i) && i + |needle| <= |s|
    ensures OccursAt(s, needle, i)
  {
    forall k | 0 <= k < |needle| ensures s[i + k] == needle[k] {
      assert (s + suffix)[i + k] == s[i + k];
    }
  }

  /** Whatever the body holds, the frame is closed once, at its very end. */
  lemma FrameClosedOnce(body: Bytes, i: nat)
    ensures OccursAt(Frame(body), CLOSING_TAG, i) <==> i + |CLOSING_TAG| == |Frame(body)|
  {
    TagFacts();
    ClosedOnce(body, i, CLOSING_TAG, ESCAPED_TAG, OPEN);
  }

  lemma ClosedOnce(body: Bytes, i: nat, tag: Bytes, escapedTag: Bytes, open: Bytes)
    requires Escapes(tag, escapedTag) && NEWLINE !in tag
    requires |open| == |tag| && open[|open| - 1] == NEWLINE
    ensures var text := open + (Replace(body, tag, escapedTag) + ([NEWLINE] + tag));
      OccursAt(text, tag, i) <==> i + |tag| == |text|
  {
    assert tag != [];
    hide Replace, Escapes;
    var escaped := Replace(body, tag, escapedTag);
    var text := open + (escaped + ([NEWLINE] + tag));
    var last := |open| + |escaped|;
    assert text[last] == NEWLINE && text[|open| - 1] == NEWLINE;
    assert forall k :: 0 <= k < |tag| ==> text[last + 1 + k] == tag[k];
    if i <= |open| - 1 < i + |tag| {
      OccurrenceAvoids(text, tag, i, |open| - 1);
    } else if i <= last < i + |tag| {
      OccurrenceAvoids(text, tag, i, last);
    } else if OccursAt(text, tag, i) && i != last + 1 {
      ShiftOccurrence(open, escaped + ([NEWLINE] + tag), tag, i);
      OccurrenceInFront(escaped, [NEWLINE] + tag, tag, i - |open|);
      ReplaceRemoves(body, i - |open|, tag, escapedTag);
    }
  }
}
