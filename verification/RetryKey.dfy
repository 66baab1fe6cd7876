/**
  The identity of a retry policy and the decision it makes (src/agent/retry.rs:10-96).
  Strings are quoted as JSON (section 7 of RFC 8259); numbers are rendered by the
  parameter `format`, of which only injectivity and the absence of delimiters matter.
*/
module RetryKey {
  import opened Wrappers
  import opened Text
  import Sorting

  datatype Mode = Always | Normal

  datatype Backoff = Backoff(initialDelay: real, maxDelay: real, jitterRatio: real)

  datatype Policy = Policy(mode: Mode, maxRetries: Option<nat>, codes: seq<string>, backoff: Backoff)

  // ----- JSON strings -----

  function Hex(n: nat): char
    requires n < 16
  {
    "0123456789abcdef"[n]
  }

  function Escaped(c: char): (r: string)
    ensures r != [] && r[0] != '\"'
  {
    if c == '\"' then "\\\""
    else if c == '\\' then "\\\\"
    else if c as int == 0x08 then "\\b"
    else if c as int == 0x0C then "\\f"
    else if c == '\n' then "\\n"
    else if c == '\r' then "\\r"
    else if c == '\t' then "\\t"
    else if c as int < 0x20 then "\\u00" + [Hex(c as int / 16), Hex(c as int % 16)]
    else [c]
  }

  /** One character of a JSON string as a reader takes it (section 7 of RFC 8259). */
  function Unescaped(r: string): Option<int> {
    if |r| == 1 && r[0] as int >= 0x20 && r[0] != '\"' && r[0] != '\\' then Some(r[0] as int)
    else if |r| == 2 && r[0] == '\\' then
      match r[1]
      case '\"' => Some(0x22)
      case '\\' => Some(0x5C)
      case 'b' => Some(0x08)
      case 't' => Some(0x09)
      case 'n' => Some(0x0A)
      case 'f' => Some(0x0C)
      case 'r' => Some(0x0D)
      case _ => None
    else if |r| == 6 && r[..4] == "\\u00" && Digit(r[4]).Some? && Digit(r[5]).Some? then
      Some(16 * Digit(r[4]).value + Digit(r[5]).value)
    else None
  }

  function Digit(c: char): Option<nat> {
    if '0' <= c <= '9' then Some(c as int - '0' as int)
    else if 'a' <= c <= 'f' then Some(c as int - 'a' as int + 10) else None
  }

  lemma HexIsDigit(n: nat)
    requires n < 16
    ensures Digit(Hex(n)) == Some(n)
  {
  }

  /** Every character reads back from its escape, and those that have a short escape get it. */
  lemma EscapeReadsBack(c: char)
    ensures Unescaped(Escaped(c)) == Some(c as int)
    ensures c as int in {0x08, 0x09, 0x0A, 0x0C, 0x0D, 0x22, 0x5C} ==> |Escaped(c)| == 2
  {
    if c as int < 0x20 {
      HexIsDigit(c as int / 16);
      HexIsDigit(c as int % 16);
      var long := "\\u00" + [Hex(c as int / 16), Hex(c as int % 16)];
      assert long[..4] == "\\u00";
    }
  }

  function EscapedAll(s: string): string {
    if s == "" then "" else Escaped(s[0]) + EscapedAll(s[1..])
  }

  function Quote(s: string): string {
    ['\"'] + EscapedAll(s) + ['\"']
  }

  lemma HexInjective(m: nat, n: nat)
    requires m < 16 && n < 16
    ensures Hex(m) == Hex(n) <==> m == n
  {
  }

  /** No escape is a prefix of another. */
  lemma EscapedIsPrefixFree(c: char, d: char, x: string, y: string)
    requires Escaped(c) + x == Escaped(d) + y
    ensures c == d && x == y
  {
    var s := Escaped(c) + x;
    assert s[0] == Escaped(c)[0] == Escaped(d)[0];
    if s[0] == '\\' {
      assert s[1] == Escaped(c)[1] == Escaped(d)[1];
      if s[1] == 'u' {
        assert s[4] == Escaped(c)[4] == Escaped(d)[4] && s[5] == Escaped(c)[5] == Escaped(d)[5];
        assert Escaped(c)[4] == Hex(c as int / 16) && Escaped(d)[4] == Hex(d as int / 16);
        assert Escaped(c)[5] == Hex(c as int % 16) && Escaped(d)[5] == Hex(d as int % 16);
        HexInjective(c as int / 16, d as int / 16);
        HexInjective(c as int % 16, d as int % 16);
      }
    }
    assert c == d;
    assert s[|Escaped(c)|..] == x && s[|Escaped(d)|..] == y;
  }

  lemma {:induction false} EscapedAllIsPrefixFree(s: string, t: string, x: string, y: string)
    requires EscapedAll(s) + ['\"'] + x == EscapedAll(t) + ['\"'] + y
    ensures s == t && x == y
    decreases |s|
  {
    NeverStartsWithQuote(s, x);
    NeverStartsWithQuote(t, y);
    if s != "" && t != "" {
      EscapedAllUnfolds(s, x);
      EscapedAllUnfolds(t, y);
      hide *;
      EscapedIsPrefixFree(s[0], t[0], EscapedAll(s[1..]) + ['\"'] + x, EscapedAll(t[1..]) + ['\"'] + y);
      EscapedAllIsPrefixFree(s[1..], t[1..], x, y);
      assert s == [s[0]] + s[1..] && t == [t[0]] + t[1..];
    } else {
      assert s == "" && t == "";
      assert (EscapedAll(s) + ['\"'] + x)[1..] == x && (EscapedAll(t) + ['\"'] + y)[1..] == y;
    }
  }

  lemma EscapedAllUnfolds(s: string, x: string)
    requires s != ""
    ensures EscapedAll(s) + ['\"'] + x == Escaped(s[0]) + (EscapedAll(s[1..]) + ['\"'] + x)
  {
  }

  lemma NeverStartsWithQuote(s: string, x: string)
    ensures (EscapedAll(s) + ['\"'] + x)[0] == '\"' <==> s == ""
  {
    if s != "" {
      assert (EscapedAll(s) + ['\"'] + x)[0] == Escaped(s[0])[0];
    }
  }

  /** A quoted string ends itself: commas, quotes and brackets inside it delimit nothing. */
  lemma QuoteIsPrefixFree(s: string, t: string, x: string, y: string)
    requires Quote(s) + x == Quote(t) + y
    ensures s == t && x == y
  {
    var a, b := EscapedAll(s) + ['\"'] + x, EscapedAll(t) + ['\"'] + y;
    assert Quote(s) + x == ['\"'] + a && Quote(t) + y == ['\"'] + b;
    assert (['\"'] + a)[1..] == a && (['\"'] + b)[1..] == b;
    EscapedAllIsPrefixFree(s, t, x, y);
  }

  // ----- UTF-16 order -----

  function CodeUnits(c: char): (r: seq<nat>)
    ensures r != []
  {
    var code := c as int;
    if code < 0x1_0000 then [code]
    else [0xD800 + (code - 0x1_0000) / 0x400, 0xDC00 + (code - 0x1_0000) % 0x400]
  }

  /** One unit of the character itself below 2^16, otherwise two surrogates of ten bits each (section 2 of RFC 2781). */
  lemma CodeUnitsDecode(c: char)
    ensures var u := CodeUnits(c);
      if c as int < 0x1_0000 then u == [c as int]
      else |u| == 2 && 0xD800 <= u[0] < 0xDC00 <= u[1] < 0xE000 && c as int == 0x1_0000 + (u[0] - 0xD800) * 0x400 + (u[1] - 0xDC00)
  {
  }

  function Utf16(s: string): seq<nat> {
    if s == "" then [] else CodeUnits(s[0]) + Utf16(s[1..])
  }

  predicate UnitsAtMost(a: seq<nat>, b: seq<nat>) {
    a == [] || (b != [] && (a[0] < b[0] || (a[0] == b[0] && UnitsAtMost(a[1..], b[1..]))))
  }

  predicate AtMost(s: string, t: string) {
    UnitsAtMost(Utf16(s), Utf16(t))
  }

  /** Surrogates are outside the scalar values, so the first unit tells how many follow. */
  lemma {:induction false} Utf16Injective(s: string, t: string)
    requires Utf16(s) == Utf16(t)
    ensures s == t
  {
    if s != "" && t != "" {
      var u := Utf16(s);
      assert u == CodeUnits(s[0]) + Utf16(s[1..]) && u == CodeUnits(t[0]) + Utf16(t[1..]);
      assert u[0] == CodeUnits(s[0])[0] == CodeUnits(t[0])[0];
      CodeUnitsDecide(s[0], t[0], Utf16(s[1..]), Utf16(t[1..]));
      Utf16Injective(s[1..], t[1..]);
      assert s == [s[0]] + s[1..] && t == [t[0]] + t[1..];
    }
  }

  lemma CodeUnitsDecide(c: char, d: char, x: seq<nat>, y: seq<nat>)
    requires CodeUnits(c) + x == CodeUnits(d) + y
    ensures c == d && x == y
  {
    var u := CodeUnits(c) + x;
    assert u[0] == CodeUnits(c)[0] == CodeUnits(d)[0];
    assert |CodeUnits(c)| == |CodeUnits(d)|;
    if |CodeUnits(c)| == 2 {
      assert u[1] == CodeUnits(c)[1] == CodeUnits(d)[1];
    }
    assert u[|CodeUnits(c)|..] == x && u[|CodeUnits(d)|..] == y;
  }

  lemma {:induction false} UnitsTotal(a: seq<nat>, b: seq<nat>)
    ensures UnitsAtMost(a, b) || UnitsAtMost(b, a)
    ensures UnitsAtMost(a, b) && UnitsAtMost(b, a) ==> a == b
  {
    if a != [] && b != [] {
      UnitsTotal(a[1..], b[1..]);
      assert a == [a[0]] + a[1..] && b == [b[0]] + b[1..];
    }
  }

  lemma {:induction false} UnitsTransitive(a: seq<nat>, b: seq<nat>, c: seq<nat>)
    requires UnitsAtMost(a, b) && UnitsAtMost(b, c)
    ensures UnitsAtMost(a, c)
  {
    if a != [] && a[0] == b[0] == c[0] {
      UnitsTransitive(a[1..], b[1..], c[1..]);
    }
  }

  lemma OrderIsTotal(s: string, t: string)
    ensures AtMost(s, t) || AtMost(t, s)
    ensures AtMost(s, t) && AtMost(t, s) ==> s == t
  {
    UnitsTotal(Utf16(s), Utf16(t));
    if Utf16(s) == Utf16(t) {
      Utf16Injective(s, t);
    }
  }

  lemma CodesAreOrdered(codes: seq<string>)
    ensures Sorting.Orders(AtMost, codes)
  {
    forall x, y | x in codes && y in codes
      ensures AtMost(x, y) || AtMost(y, x)
      ensures AtMost(x, y) && AtMost(y, x) ==> x == y
    {
      OrderIsTotal(x, y);
    }
    forall x, y, z | x in codes && y in codes && z in codes && AtMost(x, y) && AtMost(y, z) ensures AtMost(x, z) {
      UnitsTransitive(Utf16(x), Utf16(y), Utf16(z));
    }
  }

  function Sort(codes: seq<string>): seq<string> {
    Sorting.Sort(AtMost, codes)
  }

  // ----- the key -----

  function Join(parts: seq<string>, separator: string): string {
    if parts == [] then "" else if |parts| == 1 then parts[0]
    else parts[0] + separator + Join(parts[1..], separator)
  }

  function Quoted(codes: seq<string>): (r: seq<string>)
    ensures |r| == |codes| && forall i :: 0 <= i < |codes| ==> r[i] == Quote(codes[i])
  {
    if codes == [] then [] else [Quote(codes[0])] + Quoted(codes[1..])
  }

  predicate IsDigits(s: string) {
    s != "" && forall i :: 0 <= i < |s| ==> '0' <= s[i] <= '9'
  }

  function Decimal(n: nat): (r: string)
    ensures IsDigits(r) && (|r| == 1 <==> n < 10)
  {
    if n < 10 then ["0123456789"[n]] else Decimal(n / 10) + ["0123456789"[n % 10]]
  }

  function Digits(maxRetries: Option<nat>): string {
    if maxRetries.Some? then Decimal(maxRetries.value) else "null"
  }

  function ModeName(mode: Mode): string {
    match mode
    case Always => "always"
    case Normal => "normal"
  }

  function Fields(p: Policy, format: real -> string): seq<string> {
    [Quote(ModeName(p.mode))]
    + (if p.mode.Normal? then [Digits(p.maxRetries), "[" + Join(Quoted(Sort(p.codes)), ",") + "]"] else [])
    + [format(p.backoff.initialDelay), format(p.backoff.maxDelay), format(p.backoff.jitterRatio)]
  }

  function PolicyKey(p: Policy, format: real -> string): string {
    "[" + Join(Fields(p, format), ",") + "]"
  }

  function Numbers(b: Backoff): set<real> {
    {b.initialDelay, b.maxDelay, b.jitterRatio}
  }

  /**
    What is known of the number renderer on the finitely many numbers at hand: distinct
    numbers get distinct texts, and no text holds a delimiter.
  */
  ghost predicate GoodFormat(format: real -> string, numbers: set<real>) {
    && (forall x, y :: x in numbers && y in numbers && format(x) == format(y) ==> x == y)
    && (forall x :: x in numbers ==> ',' !in format(x) && ']' !in format(x))
  }

  /** Every finite set of numbers has such a renderer, one text length for each number. */
  lemma FormatExists(numbers: set<real>) returns (format: real -> string, bound: nat)
    ensures GoodFormat(format, numbers)
    ensures forall x :: x in numbers ==> |format(x)| < bound
    decreases numbers
  {
    if !exists x :: x in numbers {
      format, bound := _ => "0", 0;
    } else {
      var x :| x in numbers;
      var before, length := FormatExists(numbers - {x});
      var text := seq(length, _ => '0');
      format := y => if y == x then text else before(y);
      bound := length + 1;
      assert numbers == (numbers - {x}) + {x};
    }
  }

  /** The same policy: order of codes aside, and retries and codes only where they matter. */
  predicate SamePolicy(p: Policy, q: Policy) {
    && p.mode == q.mode && p.backoff == q.backoff
    && (p.mode.Normal? ==> p.maxRetries == q.maxRetries && multiset(p.codes) == multiset(q.codes))
  }

  // ----- reading a key from the left -----

  lemma {:induction false} TokenIsDelimited(a: string, b: string, end: char, x: string, y: string)
    requires end !in a && end !in b && a + [end] + x == b + [end] + y
    ensures a == b && x == y
    decreases |a|
  {
    var s := a + [end] + x;
    HeadOf(a, end, x);
    HeadOf(b, end, y);
    if a != "" && b != "" {
      assert s[1..] == a[1..] + [end] + x && s[1..] == b[1..] + [end] + y;
      TokenIsDelimited(a[1..], b[1..], end, x, y);
      assert a == [a[0]] + a[1..] && b == [b[0]] + b[1..];
    } else {
      assert a == "" && b == "";
      assert s[1..] == x && s[1..] == y;
    }
  }

  lemma HeadOf(a: string, end: char, x: string)
    ensures (a + [end] + x)[0] == if a == "" then end else a[0]
  {
  }

  lemma {:induction false} DecimalInjective(m: nat, n: nat)
    requires Decimal(m) == Decimal(n)
    ensures m == n
  {
    var s := Decimal(m);
    if m >= 10 && n >= 10 {
      assert s[..|s| - 1] == Decimal(m / 10) && s[..|s| - 1] == Decimal(n / 10);
      assert s[|s| - 1] == "0123456789"[m % 10] == "0123456789"[n % 10];
      DecimalInjective(m / 10, n / 10);
    } else {
      assert s[0] == "0123456789"[m] == "0123456789"[n];
    }
  }

  lemma DigitsAreDelimited(m: Option<nat>, n: Option<nat>)
    ensures ',' !in Digits(m)
    ensures Digits(m) == Digits(n) ==> m == n
  {
    if m.Some? && n.Some? && Digits(m) == Digits(n) {
      DecimalInjective(m.value, n.value);
    }
    assert "null"[0] == 'n';
  }

  lemma JoinStep(first: string, rest: seq<string>)
    ensures rest != [] ==> Join([first] + rest, ",") == first + "," + Join(rest, ",")
    ensures Join([first], ",") == first
  {
    assert ([first] + rest)[1..] == rest;
  }

  /** A bracketed list of quoted codes ends itself. */
  lemma {:induction false} CodesArePrefixFree(a: seq<string>, b: seq<string>, x: string, y: string)
    requires Join(Quoted(a), ",") + "]" + x == Join(Quoted(b), ",") + "]" + y
    ensures a == b && x == y
    decreases |a|
  {
    var whole := Join(Quoted(a), ",") + "]" + x;
    if a != [] && b != [] {
      var restA, restB := CodesRest(a, x), CodesRest(b, y);
      CodesUnfold(a, x);
      CodesUnfold(b, y);
      QuoteIsPrefixFree(a[0], b[0], restA, restB);
      hide Quote, Quoted, Join;
      if |a| > 1 && |b| > 1 {
        assert restA[1..] == Join(Quoted(a[1..]), ",") + "]" + x;
        assert restB[1..] == Join(Quoted(b[1..]), ",") + "]" + y;
        CodesArePrefixFree(a[1..], b[1..], x, y);
        assert a == [a[0]] + a[1..] && b == [b[0]] + b[1..];
      } else {
        assert restA[0] == restB[0];
        assert |a| == 1 && |b| == 1;
        assert a == [a[0]] && b == [b[0]] && restA[1..] == x && restB[1..] == y;
      }
    } else if a == [] && b == [] {
      assert whole == "]" + x && whole == "]" + y;
      assert whole[1..] == x && whole[1..] == y;
    } else {
      CodesStart(a, x);
      CodesStart(b, y);
    }
  }

  function CodesRest(codes: seq<string>, x: string): string
    requires codes != []
  {
    if |codes| == 1 then "]" + x else "," + (Join(Quoted(codes[1..]), ",") + "]" + x)
  }

  lemma CodesUnfold(codes: seq<string>, x: string)
    requires codes != []
    ensures Join(Quoted(codes), ",") + "]" + x == Quote(codes[0]) + CodesRest(codes, x)
  {
    var first, rest := Quote(codes[0]), Quoted(codes[1..]);
    assert Quoted(codes) == [first] + rest && (rest == [] <==> |codes| == 1);
    assert CodesRest(codes, x) == if rest == [] then "]" + x else "," + (Join(rest, ",") + "]" + x);
    hide *;
    JoinStep(first, rest);
    assert rest == [] ==> [first] + rest == [first];
    ConcatOne(first, x);
    ConcatMore(first, Join(rest, ","), x);
  }

  lemma ConcatOne(first: string, x: string)
    ensures first + "]" + x == first + ("]" + x)
  {
  }

  lemma ConcatMore(first: string, list: string, x: string)
    ensures first + "," + list + "]" + x == first + ("," + (list + "]" + x))
  {
  }

  lemma CodesStart(codes: seq<string>, x: string)
    ensures (Join(Quoted(codes), ",") + "]" + x)[0] == if codes == [] then ']' else '"'
  {
    if codes != [] {
      CodesUnfold(codes, x);
      assert Quote(codes[0])[0] == '"';
    }
  }

  function BackoffText(b: Backoff, format: real -> string): string {
    format(b.initialDelay) + "," + (format(b.maxDelay) + "," + (format(b.jitterRatio) + "]" + ""))
  }

  lemma {:induction false} BackoffIsDelimited(a: Backoff, b: Backoff, format: real -> string)
    requires GoodFormat(format, Numbers(a) + Numbers(b)) && BackoffText(a, format) == BackoffText(b, format)
    ensures a == b
  {
    TokenIsDelimited(format(a.initialDelay), format(b.initialDelay), ',',
      format(a.maxDelay) + "," + (format(a.jitterRatio) + "]" + ""), format(b.maxDelay) + "," + (format(b.jitterRatio) + "]" + ""));
    TokenIsDelimited(format(a.maxDelay), format(b.maxDelay), ',',
      format(a.jitterRatio) + "]" + "", format(b.jitterRatio) + "]" + "");
    TokenIsDelimited(format(a.jitterRatio), format(b.jitterRatio), ']', "", "");
  }

  /** The key, read from the left. */
  function KeyTail(p: Policy, format: real -> string): string {
    if p.mode.Always? then "," + BackoffText(p.backoff, format)
    else "," + (Digits(p.maxRetries) + "," + ("[" + (Join(Quoted(Sort(p.codes)), ",") + "]" + ("," + BackoffText(p.backoff, format)))))
  }

  lemma KeyReads(p: Policy, format: real -> string)
    ensures PolicyKey(p, format) == "[" + (Quote(ModeName(p.mode)) + KeyTail(p, format))
  {
    hide Quote, Sort, Quoted, Digits, ModeName;
    var mode, digits, codes := Quote(ModeName(p.mode)), Digits(p.maxRetries), "[" + Join(Quoted(Sort(p.codes)), ",") + "]";
    var x, y, z := format(p.backoff.initialDelay), format(p.backoff.maxDelay), format(p.backoff.jitterRatio);
    var text := Join([x, y, z], ",");
    BackoffJoins(x, y, z);
    if p.mode.Always? {
      assert Fields(p, format) == [mode] + [x, y, z];
      JoinStep(mode, [x, y, z]);
    } else {
      assert Fields(p, format) == [mode] + ([digits] + ([codes] + [x, y, z]));
      JoinStep(codes, [x, y, z]);
      JoinStep(digits, [codes] + [x, y, z]);
      JoinStep(mode, [digits] + ([codes] + [x, y, z]));
    }
  }

  lemma BackoffJoins(x: string, y: string, z: string)
    ensures Join([x, y, z], ",") + "]" == x + "," + (y + "," + (z + "]" + ""))
  {
    assert [x, y, z] == [x] + ([y] + [z]);
    JoinStep(x, [y] + [z]);
    JoinStep(y, [z]);
    JoinStep(z, []);
  }

  /** Two policies share a key exactly when they are the same policy. */
  lemma {:induction false} KeysEqualIff(p: Policy, q: Policy, format: real -> string)
    requires GoodFormat(format, Numbers(p.backoff) + Numbers(q.backoff))
    ensures PolicyKey(p, format) == PolicyKey(q, format) <==> SamePolicy(p, q)
  {
    KeyReads(p, format);
    KeyReads(q, format);
    if SamePolicy(p, q) {
      CodesAreOrdered(p.codes);
      CodesAreOrdered(q.codes);
      Sorting.SortIsCanonical(AtMost, p.codes, q.codes);
    }
    if PolicyKey(p, format) == PolicyKey(q, format) {
      KeyDetermines(p, q, format);
    }
  }

  lemma {:induction false} KeyDetermines(p: Policy, q: Policy, format: real -> string)
    requires GoodFormat(format, Numbers(p.backoff) + Numbers(q.backoff)) && PolicyKey(p, format) == PolicyKey(q, format)
    ensures SamePolicy(p, q)
  {
    KeyReads(p, format);
    KeyReads(q, format);
    var x, y := Quote(ModeName(p.mode)) + KeyTail(p, format), Quote(ModeName(q.mode)) + KeyTail(q, format);
    assert ("[" + x)[1..] == x && ("[" + y)[1..] == y;
    QuoteIsPrefixFree(ModeName(p.mode), ModeName(q.mode), KeyTail(p, format), KeyTail(q, format));
    assert "always"[0] == 'a' && "normal"[0] == 'n';
    assert p.mode == q.mode;
    hide Quote, Quoted, Sort, Digits, Join, BackoffText, ModeName;
    if p.mode.Always? {
      assert KeyTail(p, format)[1..] == BackoffText(p.backoff, format);
      assert KeyTail(q, format)[1..] == BackoffText(q.backoff, format);
      BackoffIsDelimited(p.backoff, q.backoff, format);
    } else {
      NormalTailDetermines(p, q, format);
    }
  }

  lemma {:induction false} NormalTailDetermines(p: Policy, q: Policy, format: real -> string)
    requires GoodFormat(format, Numbers(p.backoff) + Numbers(q.backoff)) && p.mode.Normal? && q.mode.Normal? && KeyTail(p, format) == KeyTail(q, format)
    ensures SamePolicy(p, q)
  {
    hide Quote, Quoted, Digits, Join, BackoffText;
    var backP, backQ := "," + BackoffText(p.backoff, format), "," + BackoffText(q.backoff, format);
    var listP, listQ := Join(Quoted(Sort(p.codes)), ",") + "]" + backP, Join(Quoted(Sort(q.codes)), ",") + "]" + backQ;
    assert KeyTail(p, format)[1..] == Digits(p.maxRetries) + "," + ("[" + listP);
    assert KeyTail(q, format)[1..] == Digits(q.maxRetries) + "," + ("[" + listQ);
    DigitsAreDelimited(p.maxRetries, q.maxRetries);
    DigitsAreDelimited(q.maxRetries, p.maxRetries);
    TokenIsDelimited(Digits(p.maxRetries), Digits(q.maxRetries), ',', "[" + listP, "[" + listQ);
    assert ("[" + listP)[1..] == listP && ("[" + listQ)[1..] == listQ;
    CodesArePrefixFree(Sort(p.codes), Sort(q.codes), backP, backQ);
    assert backP[1..] == BackoffText(p.backoff, format) && backQ[1..] == BackoffText(q.backoff, format);
    BackoffIsDelimited(p.backoff, q.backoff, format);
    CodesAreOrdered(p.codes);
    CodesAreOrdered(q.codes);
    Sorting.SortIsCanonical(AtMost, p.codes, q.codes);
  }
}
