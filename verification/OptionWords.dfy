// Compilation options as blank-separated words: get_numberParameters and parse_compilationParams
// of src/Utilities/utilities.cpp, and the text functions of the toolkit that they rely on.
module OptionWords {

  // QChar::isSpace
  predicate IsSpace(c: char) {
    c == ' ' || '\t' <= c <= '\r' || c == '\U{85}' || c == '\U{A0}' || c == '\U{1680}'
    || '\U{2000}' <= c <= '\U{200A}' || c == '\U{2028}' || c == '\U{2029}' || c == '\U{202F}'
    || c == '\U{205F}' || c == '\U{3000}'
  }

  predicate Blank(s: string) { forall i :: 0 <= i < |s| ==> IsSpace(s[i]) }

  predicate IsWord(s: string) { s != "" && forall i :: 0 <= i < |s| ==> !IsSpace(s[i]) }

  // The number of characters before the first blank.
  function WordLength(s: string): (n: nat)
    ensures n <= |s| && (forall i :: 0 <= i < n ==> !IsSpace(s[i])) && (n < |s| ==> IsSpace(s[n]))
  {
    if s == "" || IsSpace(s[0]) then 0 else 1 + WordLength(s[1..])
  }

  function Words(s: string): seq<string>
    decreases |s|
  {
    if s == "" then []
    else if IsSpace(s[0]) then Words(s[1..])
    else [s[..WordLength(s)]] + Words(s[WordLength(s)..])
  }

  // ---- the words of a text are what is between its blanks ----

  // gaps[0] + words[0] + gaps[1] + ... + words[n-1] + gaps[n]
  function Spread(words: seq<string>, gaps: seq<string>): string
    requires |gaps| == |words| + 1
  {
    if words == [] then gaps[0] else gaps[0] + words[0] + Spread(words[1..], gaps[1..])
  }

  // Blank gaps, with at least one blank between two words.
  ghost predicate Separates(words: seq<string>, gaps: seq<string>) {
    && |gaps| == |words| + 1
    && (forall i :: 0 <= i < |gaps| ==> Blank(gaps[i]))
    && (forall i :: 0 < i < |words| ==> gaps[i] != "")
    && (forall i :: 0 <= i < |words| ==> IsWord(words[i]))
  }

  lemma {:induction false} WordsAfterBlank(blank: string, s: string)
    requires Blank(blank)
    ensures Words(blank + s) == Words(s)
  {
    if blank == "" {
      assert blank + s == s;
    } else {
      assert (blank + s)[1..] == blank[1..] + s;
      WordsAfterBlank(blank[1..], s);
    }
  }

  lemma {:induction false} WordLengthOf(word: string, s: string)
    requires IsWord(word) && (s != "" ==> IsSpace(s[0]))
    ensures WordLength(word + s) == |word|
  {
    hide IsSpace;
    assert (word + s)[1..] == word[1..] + s;
    if |word| > 1 {
      WordLengthOf(word[1..], s);
    } else {
      assert word[1..] + s == s;
    }
  }

  lemma WordsAfterWord(word: string, s: string)
    requires IsWord(word) && (s != "" ==> IsSpace(s[0]))
    ensures Words(word + s) == [word] + Words(s)
  {
    WordLengthOf(word, s);
    assert (word + s)[..|word|] == word && (word + s)[|word|..] == s;
  }

  // Any text made of these words and of such gaps has exactly these words.
  lemma {:induction false} WordsOfSpread(words: seq<string>, gaps: seq<string>)
    requires Separates(words, gaps)
    ensures Words(Spread(words, gaps)) == words
  {
    hide IsSpace;
    if words == [] {
      WordsAfterBlank(gaps[0], "");
      assert gaps[0] + "" == gaps[0];
    } else {
      var rest := Spread(words[1..], gaps[1..]);
      assert Separates(words[1..], gaps[1..]) by {
        assert forall i :: 0 < i < |words[1..]| ==> gaps[1..][i] == gaps[i + 1];
      }
      WordsOfSpread(words[1..], gaps[1..]);
      SpreadStart(words[1..], gaps[1..]);
      WordsAfterBlank(gaps[0], words[0] + rest);
      assert gaps[0] + words[0] + rest == gaps[0] + (words[0] + rest);
      WordsAfterWord(words[0], rest);
    }
  }

  lemma SpreadStart(words: seq<string>, gaps: seq<string>)
    requires |gaps| == |words| + 1 && Blank(gaps[0]) && (words != [] ==> gaps[0] != "")
    ensures Spread(words, gaps) != "" ==> IsSpace(Spread(words, gaps)[0])
  {
    hide IsSpace;
  }

  lemma NoWords()
    ensures Separates([], [""]) && Spread([], [""]) == ""
  {
  }

  lemma FirstIsWord(s: string)
    requires s != "" && !IsSpace(s[0])
    ensures IsWord(s[..WordLength(s)])
  {
    hide IsSpace;
  }

  // And every text is made of its words and of such gaps.
  lemma {:induction false} GapsOf(s: string) returns (gaps: seq<string>)
    ensures |gaps| == |Words(s)| + 1 && Separates(Words(s), gaps) && Spread(Words(s), gaps) == s
    ensures s != "" && IsSpace(s[0]) ==> gaps[0] != ""
    decreases |s|
  {
    hide IsSpace, Separates, Spread, IsWord;
    if s == "" {
      gaps := [""];
      NoWords();
    } else if IsSpace(s[0]) {
      var g := GapsOf(s[1..]);
      gaps := g[0 := [s[0]] + g[0]];
      PrependBlank(s[0], Words(s[1..]), g);
      assert s == [s[0]] + s[1..];
    } else {
      var n := WordLength(s);
      var rest := GapsOf(s[n..]);
      gaps := [""] + rest;
      FirstIsWord(s);
      PrependWord(s[..n], Words(s[n..]), rest);
      assert s == s[..n] + s[n..];
    }
  }

  lemma PrependBlank(c: char, words: seq<string>, gaps: seq<string>)
    requires IsSpace(c) && Separates(words, gaps)
    ensures Separates(words, gaps[0 := [c] + gaps[0]])
    ensures Spread(words, gaps[0 := [c] + gaps[0]]) == [c] + Spread(words, gaps)
  {
    hide IsSpace;
    assert gaps[0 := [c] + gaps[0]][1..] == gaps[1..];
  }

  lemma PrependWord(word: string, words: seq<string>, gaps: seq<string>)
    requires IsWord(word) && Separates(words, gaps) && (words != [] ==> gaps[0] != "")
    ensures Separates([word] + words, [""] + gaps)
    ensures Spread([word] + words, [""] + gaps) == word + Spread(words, gaps)
  {
    hide IsSpace;
    assert ([word] + words)[1..] == words && ([""] + gaps)[1..] == gaps;
  }

  lemma WordsAreWords(s: string)
    ensures forall i :: 0 <= i < |Words(s)| ==> IsWord(Words(s)[i])
  {
    var gaps := GapsOf(s);
  }

  // ---- get_numberParameters ----

  method GetNumberParameters(options: string) returns (argc: nat)
    ensures argc == |Words(options)|
  {
    hide IsSpace;
    argc := 0;
    var inWord := false;
    var i := 0;
    assert options[0..] == options;
    while i < |options|
      invariant 0 <= i <= |options|
      invariant argc + |Words(options[i..])| ==
        |Words(options)| + if inWord && i < |options| && !IsSpace(options[i]) then 1 else 0
    {
      WordsFrom(options, i);
      if IsSpace(options[i]) {
        inWord := false;
      } else if !inWord {
        inWord := true;
        argc := argc + 1;
      }
      i := i + 1;
    }
  }

  lemma WordsFrom(s: string, i: nat)
    requires i < |s|
    ensures IsSpace(s[i]) ==> |Words(s[i..])| == |Words(s[i + 1..])|
    ensures !IsSpace(s[i]) && (i + 1 == |s| || IsSpace(s[i + 1])) ==>
      |Words(s[i..])| == 1 + |Words(s[i + 1..])|
    ensures !IsSpace(s[i]) && i + 1 < |s| && !IsSpace(s[i + 1]) ==>
      |Words(s[i..])| == |Words(s[i + 1..])|
  {
    hide IsSpace;
    assert s[i..][1..] == s[i + 1..];
    if !IsSpace(s[i]) {
      var n := WordLength(s[i + 1..]);
      assert WordLength(s[i..]) == 1 + n;
      assert s[i..][1 + n..] == s[i + 1..][n..];
      if i + 1 == |s| || IsSpace(s[i + 1]) {
        assert n == 0 && s[i + 1..][0..] == s[i + 1..];
      }
    }
  }

  // ---- parse_compilationParams ----

  method ParseCompilationParams(options: string) returns (word: string, rest: string)
    ensures Words(options) == [] ==> word == "" && rest == ""
    ensures Words(options) != [] ==> word == Words(options)[0] && Words(rest) == Words(options)[1..]
    ensures Blank(rest) <==> |Words(options)| <= 1
  {
    hide IsSpace;
    var start := 0;
    assert options[0..] == options;
    while start < |options| && IsSpace(options[start])
      invariant 0 <= start <= |options| && Words(options[start..]) == Words(options)
    {
      assert options[start..][1..] == options[start + 1..];
      start := start + 1;
    }
    var end := start;
    while end < |options| && !IsSpace(options[end])
      invariant start <= end <= |options|
      invariant forall i :: start <= i < end ==> !IsSpace(options[i])
    {
      end := end + 1;
    }
    word := options[start..end];
    rest := options[end..];
    if start < |options| {
      assert options[start..] == word + rest;
      WordsAfterWord(word, rest);
    }
    BlankIffNoWords(rest);
  }

  lemma BlankIffNoWords(s: string)
    ensures Blank(s) <==> Words(s) == []
  {
    hide IsSpace;
    var gaps := GapsOf(s);
    if Blank(s) {
      WordsAfterBlank(s, "");
      assert s + "" == s;
    }
  }

  // The loop that FL_reorganize_compilation_options and getFactoryArgv share: one call of
  // parse_compilationParams for each counted word gives the words in order, and leaves blanks only.
  method ParseAll(options: string) returns (words: seq<string>, rest: string)
    ensures words == Words(options) && Blank(rest)
  {
    hide IsSpace, Words;
    var argc := GetNumberParameters(options);
    words := [];
    rest := options;
    var i := 0;
    while i < argc
      invariant 0 <= i <= argc && |words| == i && words + Words(rest) == Words(options)
    {
      var word;
      ghost var before := Words(rest);
      word, rest := ParseCompilationParams(rest);
      assert before == [word] + Words(rest);
      words := words + [word];
      i := i + 1;
    }
    BlankIffNoWords(rest);
  }

  // ---- texts put together ----

  // Two texts with a blank between them, or one of them empty.
  ghost predicate Apart(s: string, t: string) {
    s == "" || t == "" || IsSpace(s[|s| - 1]) || IsSpace(t[0])
  }

  lemma WordBefore(word: string, rest: string, t: string)
    requires IsWord(word) && (rest != "" ==> IsSpace(rest[0])) && Apart(word + rest, t)
    ensures Apart(rest, t)
    ensures Words(word + rest) == [word] + Words(rest)
    ensures Words(word + rest + t) == [word] + Words(rest + t)
  {
    hide IsSpace, Words;
    assert word + rest + t == word + (rest + t);
    assert rest == "" && t != "" ==> IsSpace(t[0]) by {
      assert rest == "" ==> (word + rest)[|word + rest| - 1] == word[|word| - 1];
    }
    assert rest != "" ==> (word + rest)[|word + rest| - 1] == rest[|rest| - 1];
    WordsAfterWord(word, rest);
    WordsAfterWord(word, rest + t);
  }

  // When a blank separates two texts, their words follow each other.
  lemma {:induction false} WordsConcat(s: string, t: string)
    requires Apart(s, t)
    ensures Words(s + t) == Words(s) + Words(t)
    decreases |s|
  {
    hide IsSpace;
    if s == "" {
      assert s + t == t;
    } else if IsSpace(s[0]) {
      assert (s + t)[1..] == s[1..] + t;
      WordsConcat(s[1..], t);
    } else {
      var word, rest := s[..WordLength(s)], s[WordLength(s)..];
      assert s == word + rest;
      WordBefore(word, rest, t);
      WordsConcat(rest, t);
    }
  }

  // QString::simplified: no blank at the ends, and one space for any other sequence of blanks.
  function Join(words: seq<string>): string {
    if words == [] then "" else if |words| == 1 then words[0] else words[0] + " " + Join(words[1..])
  }

  function Simplified(s: string): string { Join(Words(s)) }

  lemma {:induction false} WordsOfJoin(words: seq<string>)
    requires forall i :: 0 <= i < |words| ==> IsWord(words[i])
    ensures Words(Join(words)) == words
  {
    if |words| == 1 {
      WordsAfterWord(words[0], "");
      assert words[0] + "" == words[0];
    } else if |words| > 1 {
      var rest := Join(words[1..]);
      WordsOfJoin(words[1..]);
      assert Join(words) == words[0] + (" " + rest);
      WordsAfterWord(words[0], " " + rest);
      WordsAfterBlank(" ", rest);
    }
  }

  // Texts with the same simplified form have the same words, and conversely.
  lemma SimplifiedKeepsWords(s: string, t: string)
    ensures Words(Simplified(s)) == Words(s)
    ensures Simplified(s) == Simplified(t) <==> Words(s) == Words(t)
  {
    WordsAreWords(s);
    WordsAreWords(t);
    WordsOfJoin(Words(s));
    WordsOfJoin(Words(t));
  }
}
