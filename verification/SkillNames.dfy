/** Skill names and catalogue descriptions (src/skills.rs:582-612). */
module SkillNames {
  import opened Wrappers
  import opened Text

  const MAX_SKILL_NAME_BYTES: nat := 128
  const MAX_SKILL_DESCRIPTION_CHARS: nat := 500

  predicate IsWordCharacter(c: char) {
    'a' <= c <= 'z' || '0' <= c <= '9'
  }

  /** What the scan checks, character by character. */
  predicate IsSkillName(name: string) {
    && name != "" && Utf8Length(name) <= MAX_SKILL_NAME_BYTES
    && name[0] != '-' && name[|name| - 1] != '-'
    && (forall i :: 0 <= i < |name| ==> IsWordCharacter(name[i]) || name[i] == '-')
    && (forall i :: 0 < i < |name| ==> !(name[i - 1] == '-' && name[i] == '-'))
  }

  method CheckSkillName(name: string) returns (ok: bool)
    ensures ok == IsSkillName(name)
  {
    if name == "" || Utf8Length(name) > MAX_SKILL_NAME_BYTES {
      return false;
    }
    if name[0] == '-' || name[|name| - 1] == '-' {
      return false;
    }
    var previousHyphen := false;
    for i := 0 to |name|
      invariant previousHyphen == (i > 0 && name[i - 1] == '-')
      invariant forall j :: 0 <= j < i ==> IsWordCharacter(name[j]) || name[j] == '-'
      invariant forall j :: 0 < j < i ==> !(name[j - 1] == '-' && name[j] == '-')
    {
      if IsWordCharacter(name[i]) {
        previousHyphen := false;
      } else if name[i] == '-' && !previousHyphen {
        previousHyphen := true;
      } else {
        return false;
      }
    }
    ok := true;
  }

  // ----- what a name is -----

  function Join(words: seq<string>, separator: char): string {
    if words == [] then "" else if |words| == 1 then words[0]
    else words[0] + [separator] + Join(words[1..], separator)
  }

  predicate IsWord(word: string) {
    word != "" && forall i :: 0 <= i < |word| ==> 97 <= word[i] as int <= 122 || 48 <= word[i] as int <= 57
  }

  predicate AreWords(words: seq<string>) {
    words != [] && forall i :: 0 <= i < |words| ==> IsWord(words[i])
  }

  /** Between hyphens. */
  function Pieces(name: string): (r: seq<string>)
    ensures r != []
  {
    if name == "" then [""]
    else
      var rest := Pieces(name[1..]);
      if name[0] == '-' then [""] + rest else [[name[0]] + rest[0]] + rest[1..]
  }

  predicate WellHyphenated(name: string) {
    && name != "" && name[0] != '-' && name[|name| - 1] != '-'
    && (forall i :: 0 <= i < |name| ==> IsWordCharacter(name[i]) || name[i] == '-')
    && (forall i :: 0 < i < |name| ==> !(name[i - 1] == '-' && name[i] == '-'))
  }

  lemma JoinCons(first: string, rest: seq<string>, separator: char)
    ensures Join([first] + rest, separator) == if rest == [] then first else first + [separator] + Join(rest, separator)
  {
    assert ([first] + rest)[1..] == rest;
  }

  lemma Associates(a: string, b: string, c: string, d: string)
    ensures a + b + c + d == a + (b + c + d)
  {
  }

  lemma JoinGrowsFirst(c: char, pieces: seq<string>)
    requires pieces != []
    ensures Join([[c] + pieces[0]] + pieces[1..], '-') == [c] + Join(pieces, '-')
    ensures Join([""] + pieces, '-') == ['-'] + Join(pieces, '-')
  {
    hide *;
    var first, rest := pieces[0], pieces[1..];
    assert pieces == [first] + rest;
    JoinCons([c] + first, rest, '-');
    JoinCons(first, rest, '-');
    JoinCons("", pieces, '-');
    Associates([c], first, ['-'], Join(rest, '-'));
  }

  lemma {:induction false} PiecesJoin(name: string)
    ensures Join(Pieces(name), '-') == name
  {
    if name != "" {
      PiecesJoin(name[1..]);
      JoinGrowsFirst(name[0], Pieces(name[1..]));
      assert name == [name[0]] + name[1..];
    }
  }

  lemma {:induction false} PiecesAreWords(name: string)
    requires WellHyphenated(name)
    ensures AreWords(Pieces(name))
  {
    var rest := Pieces(name[1..]);
    if |name| == 1 {
      assert name[1..] == "" && Pieces(name) == [[name[0]] + ""];
    } else if name[1] == '-' {
      var tail := name[2..];
      assert name[1..][1..] == tail && tail != "";
      assert WellHyphenated(tail);
      PiecesAreWords(tail);
      assert Pieces(name[1..]) == [""] + Pieces(tail);
      assert Pieces(name) == [[name[0]] + ""] + Pieces(tail);
    } else {
      assert WellHyphenated(name[1..]);
      PiecesAreWords(name[1..]);
    }
  }

  lemma {:induction false} WordsAreHyphenated(words: seq<string>)
    requires AreWords(words)
    ensures WellHyphenated(Join(words, '-'))
  {
    if |words| > 1 {
      var first, rest := words[0], Join(words[1..], '-');
      WordsAreHyphenated(words[1..]);
      var name := first + ['-'] + rest;
      assert name[|name| - 1] == rest[|rest| - 1] && name[0] == first[0];
      forall i | 0 <= i < |name| ensures IsWordCharacter(name[i]) || name[i] == '-' {
        if i > |first| {
          assert name[i] == rest[i - |first| - 1];
        }
      }
      forall i | 0 < i < |name| ensures !(name[i - 1] == '-' && name[i] == '-') {
        if i > |first| + 1 {
          assert name[i] == rest[i - |first| - 1] && name[i - 1] == rest[i - |first| - 2];
        } else if i == |first| + 1 {
          assert name[i] == rest[0];
        } else {
          assert name[i - 1] == first[i - 1];
        }
      }
    }
  }

  /** Exactly the hyphen-separated lower-case alphanumeric words of at most 128 bytes. */
  lemma SkillNameIff(name: string)
    ensures IsSkillName(name) <==> |name| <= 128 && exists words :: AreWords(words) && name == Join(words, '-')
  {
    if WellHyphenated(name) {
      AsciiLength(name);
      PiecesAreWords(name);
      PiecesJoin(name);
    }
    forall words | AreWords(words) && name == Join(words, '-') ensures WellHyphenated(name) {
      WordsAreHyphenated(words);
    }
  }

  // ----- descriptions -----

  /** How long the leading run of non-whitespace is. */
  function RunLength(s: string): (r: nat)
    ensures r <= |s| && (forall i :: 0 <= i < r ==> !IsWhitespace(s[i])) && (r < |s| ==> IsWhitespace(s[r]))
  {
    if s == "" || IsWhitespace(s[0]) then 0 else
    assert forall i :: 1 <= i < |s| ==> s[1..][i - 1] == s[i];
    1 + RunLength(s[1..])
  }

  /** Maximal runs of non-whitespace. */
  function Words(s: string): (r: seq<string>)
    decreases |s|
  {
    if s == "" then []
    else if IsWhitespace(s[0]) then Words(s[1..])
    else [s[..RunLength(s)]] + Words(s[RunLength(s)..])
  }

  function Collapse(s: string): string {
    Join(Words(s), ' ')
  }

  function NormalizeDescription(s: string): (r: string)
    ensures |r| <= MAX_SKILL_DESCRIPTION_CHARS
  {
    var normal := Collapse(s);
    if |normal| <= MAX_SKILL_DESCRIPTION_CHARS then normal
    else normal[..MAX_SKILL_DESCRIPTION_CHARS - 3] + "..."
  }

  /** Single spaces between words and none around them. */
  predicate Tidy(s: string) {
    s == "" ||
    (&& !IsWhitespace(s[0]) && !IsWhitespace(s[|s| - 1])
     && forall i :: 0 <= i < |s| - 1 && IsWhitespace(s[i]) ==> s[i] == ' ' && !IsWhitespace(s[i + 1]))
  }

  predicate Solid(word: string) {
    word != "" && forall i :: 0 <= i < |word| ==> !IsWhitespace(word[i])
  }

  lemma {:induction false} WordsAreSolid(s: string)
    ensures forall i :: 0 <= i < |Words(s)| ==> Solid(Words(s)[i])
    decreases |s|
  {
    hide IsWhitespace;
    if s != "" && IsWhitespace(s[0]) {
      WordsAreSolid(s[1..]);
    } else if s != "" {
      WordsAreSolid(s[RunLength(s)..]);
    }
  }

  lemma {:induction false} SolidJoinsTidy(words: seq<string>)
    requires forall i :: 0 <= i < |words| ==> Solid(words[i])
    ensures Tidy(Join(words, ' ')) && (words != [] ==> Join(words, ' ') != "")
  {
    if |words| > 1 {
      SolidJoinsTidy(words[1..]);
      assert Solid(words[0]);
      TidyPrepend(words[0], Join(words[1..], ' '));
    } else if |words| == 1 {
      SolidIsTidy(words[0]);
    }
  }

  lemma SolidIsTidy(word: string)
    requires Solid(word)
    ensures Tidy(word)
  {
    hide IsWhitespace;
  }

  lemma TidyPrepend(word: string, rest: string)
    requires Solid(word) && Tidy(rest) && rest != ""
    ensures Tidy(word + [' '] + rest)
  {
    assert IsWhitespace(' ');
    hide IsWhitespace;
    var s := word + [' '] + rest;
    assert s[|s| - 1] == rest[|rest| - 1] && s[0] == word[0];
    assert s[|word| + 1] == rest[0];
    assert forall j :: 0 <= j < |word| ==> s[j] == word[j];
    forall i | 0 <= i < |s| - 1 && IsWhitespace(s[i]) ensures s[i] == ' ' && !IsWhitespace(s[i + 1]) {
      if i > |word| {
        assert s[i] == rest[i - |word| - 1] && s[i + 1] == rest[i - |word|];
      }
    }
  }

  lemma TidyRun(s: string)
    requires Tidy(s) && s != ""
    ensures var k := RunLength(s);
      && 0 < k && (k < |s| ==> k < |s| - 1 && s[k] == ' ' && !IsWhitespace(s[k + 1]))
  {
    hide IsWhitespace;
  }

  lemma OneWord(s: string)
    requires s == "" || RunLength(s) == |s|
    ensures Collapse(s) == s && (s != "" ==> Words(s) == [s])
  {
    hide IsWhitespace;
    if s != "" {
      assert s[..|s|] == s && s[|s|..] == "";
      assert Words(s) == [s] + Words("");
    }
  }

  /** Tidy text is left alone. */
  lemma {:induction false} TidyIsFixed(s: string)
    requires Tidy(s)
    ensures Collapse(s) == s && (s != "" ==> Words(s) != [])
    decreases |s|
  {
    hide IsWhitespace, RunLength, Words, Join, Tidy;
    if s == "" || RunLength(s) == |s| {
      OneWord(s);
    } else {
      var k := RunLength(s);
      TidyRun(s);
      TidyDrop(s, k + 1);
      TidyIsFixed(s[k + 1..]);
      WordsStep(s, k);
      JoinCons(s[..k], Words(s[k + 1..]), ' ');
      assert s == s[..k] + [' '] + s[k + 1..];
    }
  }

  lemma WordsStep(s: string, k: nat)
    requires k == RunLength(s) && 0 < k < |s| - 1 && !IsWhitespace(s[k + 1])
    ensures Words(s) == [s[..k]] + Words(s[k + 1..])
  {
    hide IsWhitespace;
    assert s[k..][1..] == s[k + 1..];
    assert Words(s[k..]) == Words(s[k + 1..]);
  }

  lemma TidyDrop(s: string, k: nat)
    requires Tidy(s) && k < |s| && !IsWhitespace(s[k])
    ensures Tidy(s[k..]) && s[k..] != ""
  {
    hide IsWhitespace;
    var t := s[k..];
    assert t[|t| - 1] == s[|s| - 1];
    forall i | 0 <= i < |t| - 1 && IsWhitespace(t[i]) ensures t[i] == ' ' && !IsWhitespace(t[i + 1]) {
      assert t[i] == s[k + i] && t[i + 1] == s[k + i + 1];
    }
  }

  lemma TidyCut(s: string, k: nat)
    requires Tidy(s) && 0 < k < |s|
    ensures Tidy(s[..k] + "...")
  {
    assert !IsWhitespace('.');
    hide IsWhitespace;
    var t := s[..k] + "...";
    forall i | 0 <= i < |t| - 1 && IsWhitespace(t[i]) ensures t[i] == ' ' && !IsWhitespace(t[i + 1]) {
      assert i < k && t[i] == s[i];
      assert i + 1 < k ==> t[i + 1] == s[i + 1];
    }
  }

  /** Normalising once is enough: a description read back from a catalogue is already normal. */
  lemma NormalizeDescriptionIsIdempotent(s: string)
    ensures NormalizeDescription(NormalizeDescription(s)) == NormalizeDescription(s)
    ensures Tidy(NormalizeDescription(s))
  {
    var normal := Collapse(s);
    WordsAreSolid(s);
    SolidJoinsTidy(Words(s));
    hide Words, Join, Tidy;
    if |normal| > MAX_SKILL_DESCRIPTION_CHARS {
      TidyCut(normal, MAX_SKILL_DESCRIPTION_CHARS - 3);
    }
    TidyIsFixed(NormalizeDescription(s));
  }

  // ----- what a description keeps -----

  /** The characters that are not whitespace, in order. */
  function Visible(s: string): string {
    if s == "" then "" else (if IsWhitespace(s[0]) then "" else [s[0]]) + Visible(s[1..])
  }

  lemma {:induction false} VisibleAppend(a: string, b: string)
    ensures Visible(a + b) == Visible(a) + Visible(b)
    decreases |a|
  {
    if a == "" {
      assert a + b == b;
    } else {
      assert (a + b)[1..] == a[1..] + b;
      VisibleAppend(a[1..], b);
    }
  }

  lemma {:induction false} SolidIsVisible(word: string)
    requires forall i :: 0 <= i < |word| ==> !IsWhitespace(word[i])
    ensures Visible(word) == word
  {
    if word != "" {
      SolidIsVisible(word[1..]);
    }
  }

  lemma {:induction false} JoinKeepsVisible(words: seq<string>)
    ensures words != [] ==> Visible(Join(words, ' ')) == Visible(words[0]) + Visible(Join(words[1..], ' '))
  {
    if |words| > 1 {
      assert IsWhitespace(' ') && [' '][1..] == "" && Visible([' ']) == "";
      VisibleAppend(words[0] + [' '], Join(words[1..], ' '));
      VisibleAppend(words[0], [' ']);
    } else if |words| == 1 {
      assert Join(words[1..], ' ') == "";
    }
  }

  /** Collapsing whitespace loses no other character. */
  lemma {:induction false} CollapseKeepsVisible(s: string)
    ensures Visible(Collapse(s)) == Visible(s)
    decreases |s|
  {
    if s != "" && IsWhitespace(s[0]) {
      CollapseKeepsVisible(s[1..]);
    } else if s != "" {
      var k := RunLength(s);
      var word, rest := s[..k], s[k..];
      assert s == word + rest && Words(s) == [word] + Words(rest) && Words(s)[1..] == Words(rest);
      CollapseKeepsVisible(rest);
      VisibleAppend(word, rest);
      SolidIsVisible(word);
      JoinKeepsVisible(Words(s));
    } else {
      assert Words(s) == [] && Join(Words(s), ' ') == "";
    }
  }

  /** Between two visible characters the collapsed text has whitespace exactly where the description had some. */
  lemma {:induction false} CollapseKeepsWords(s: string)
    ensures Words(Collapse(s)) == Words(s)
  {
    WordsAreSolid(s);
    WordsOfJoin(Words(s));
  }

  lemma {:induction false} WordsOfJoin(words: seq<string>)
    requires forall i :: 0 <= i < |words| ==> Solid(words[i])
    ensures Words(Join(words, ' ')) == words
  {
    if |words| == 1 {
      SolidRun(words[0], "");
      OneWord(words[0]);
      assert words[0] + "" == words[0];
    } else if |words| > 1 {
      var rest := Join(words[1..], ' ');
      WordsOfJoin(words[1..]);
      var text := words[0] + [' '] + rest;
      assert Solid(words[0]);
      SolidRun(words[0], [' '] + rest);
      assert text == words[0] + ([' '] + rest);
      assert text[..|words[0]|] == words[0] && text[|words[0]|..] == [' '] + rest && ([' '] + rest)[1..] == rest;
      assert IsWhitespace(' ');
      assert Words([' '] + rest) == Words(rest);
      assert words == [words[0]] + words[1..];
    }
  }

  lemma {:induction false} SolidRun(word: string, rest: string)
    requires Solid(word) && (rest != "" ==> IsWhitespace(rest[0]))
    ensures RunLength(word + rest) == |word| && !IsWhitespace((word + rest)[0])
  {
    var text := word + rest;
    assert text[0] == word[0];
    assert forall i :: 0 <= i < |word| ==> text[i] == word[i];
    assert rest != "" ==> text[|word|] == rest[0];
  }

  /**
    A description keeps every visible character and every word, single-spaced; only one
    longer than 500 characters is cut, to its first 497 and three dots.
  */
  lemma NormalizeKeepsText(s: string) returns (text: string)
    ensures Tidy(text) && Visible(text) == Visible(s) && Words(text) == Words(s)
    ensures NormalizeDescription(s) == if |text| <= 500 then text else text[..497] + "..."
  {
    text := Collapse(s);
    CollapseKeepsVisible(s);
    CollapseKeepsWords(s);
    WordsAreSolid(s);
    SolidJoinsTidy(Words(s));
  }
}
