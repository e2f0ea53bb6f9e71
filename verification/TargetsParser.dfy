// The recursive-descent parser of src/MenusAndDialogs/SimpleParser.cpp for the records
// {"os1" : ["arch1", "arch2"], "os2" : ["arch3"]}, and the texts that it accepts.
module TargetsParser {
  import opened CText

  // What a parser answers, with the text that it leaves
  datatype Parsed<T> = Parsed(ok: bool, value: T, rest: string)

  type System = (string, seq<string>)

  const QUOTE := '\"'

  // ---- what the parser does, on the text that is left ----

  function Skip(s: string): string {
    if s != "" && IsCSpace(s[0]) then Skip(s[1..]) else s
  }

  function ParseChar(s: string, x: char): Parsed<()> {
    var q := Skip(s);
    if q != "" && q[0] == x then Parsed(true, (), q[1..]) else Parsed(false, (), q)
  }

  // The number of characters before the next quote, or before the end
  function QuoteAt(s: string): (n: nat)
    ensures n <= |s|
  {
    if s == "" || s[0] == QUOTE then 0 else 1 + QuoteAt(s[1..])
  }

  lemma {:induction false} EndOrQuote(s: string)
    ensures QuoteAt(s) < |s| ==> s[QuoteAt(s)] == QUOTE
  {
    if s != "" && s[0] != QUOTE {
      EndOrQuote(s[1..]);
    }
  }

  function ParseString(s: string): Parsed<string> {
    var q := Skip(s);
    if q == "" || q[0] != QUOTE then Parsed(false, "", q)
    else
      var n := QuoteAt(q[1..]);
      if n + 1 < |q| then Parsed(true, q[1..n + 1], q[n + 2..]) else Parsed(false, "", q)
  }

  function ParseNames(s: string, v: seq<string>): Parsed<seq<string>>
    decreases |s|
  {
    ParseStringShortens(s);
    var a := ParseString(s);
    if !a.ok then Parsed(false, v, a.rest)
    else
      var comma := ParseChar(a.rest, ',');
      ParseCharShortens(a.rest, ',');
      if comma.ok then ParseNames(comma.rest, v + [a.value]) else Parsed(true, v + [a.value], comma.rest)
  }

  function ParseSystem(s: string): Parsed<System> {
    var os := ParseString(s);
    if !os.ok then Parsed(false, ("", []), os.rest) else
    var colon := ParseChar(os.rest, ':');
    if !colon.ok then Parsed(false, (os.value, []), colon.rest) else
    var open := ParseChar(colon.rest, '[');
    if !open.ok then Parsed(false, (os.value, []), open.rest) else
    var names := ParseNames(open.rest, []);
    if !names.ok then Parsed(false, (os.value, names.value), names.rest) else
    var close := ParseChar(names.rest, ']');
    Parsed(close.ok, (os.value, names.value), close.rest)
  }

  function ParseSystems(s: string, v: seq<System>): Parsed<seq<System>>
    decreases |s|
  {
    ParseSystemShortens(s);
    var os := ParseSystem(s);
    if !os.ok then Parsed(false, v, os.rest)
    else
      var comma := ParseChar(os.rest, ',');
      ParseCharShortens(os.rest, ',');
      if comma.ok then ParseSystems(comma.rest, v + [os.value]) else Parsed(true, v + [os.value], comma.rest)
  }

  // A leading brace is read if there is one; the result of that test is not used.
  function ParseRecord(s: string): Parsed<seq<System>> {
    var systems := ParseSystems(ParseChar(s, '{').rest, []);
    if !systems.ok then systems
    else
      var close := ParseChar(systems.rest, '}');
      Parsed(close.ok, systems.value, close.rest)
  }

  // The names in order, and the map from a name to the architectures of its last record
  function Platforms(systems: seq<System>): (names: seq<string>)
    ensures |names| == |systems|
  {
    seq(|systems|, i requires 0 <= i < |systems| => systems[i].0)
  }

  function Targets(systems: seq<System>): map<string, seq<string>> {
    if systems == [] then map[]
    else Targets(systems[..|systems| - 1])[systems[|systems| - 1].0 := systems[|systems| - 1].1]
  }

  lemma {:induction false} SkipShortens(s: string)
    ensures |Skip(s)| <= |s|
  {
    if s != "" && IsCSpace(s[0]) {
      SkipShortens(s[1..]);
    }
  }

  lemma ParseCharShortens(s: string, x: char)
    ensures |ParseChar(s, x).rest| <= |s|
    ensures ParseChar(s, x).ok ==> |ParseChar(s, x).rest| < |s|
  {
    SkipShortens(s);
  }

  lemma ParseStringShortens(s: string)
    ensures |ParseString(s).rest| <= |s|
    ensures ParseString(s).ok ==> |ParseString(s).rest| < |s|
  {
    SkipShortens(s);
  }

  lemma {:induction false} ParseNamesShortens(s: string, v: seq<string>)
    ensures |ParseNames(s, v).rest| <= |s|
    decreases |s|
  {
    hide ParseString, ParseChar;
    ParseStringShortens(s);
    var a := ParseString(s);
    if a.ok {
      var comma := ParseChar(a.rest, ',');
      ParseCharShortens(a.rest, ',');
      if comma.ok {
        ParseNamesShortens(comma.rest, v + [a.value]);
      }
    }
  }

  lemma ParseSystemShortens(s: string)
    ensures |ParseSystem(s).rest| <= |s|
    ensures ParseSystem(s).ok ==> |ParseSystem(s).rest| < |s|
  {
    hide ParseString, ParseChar, ParseNames;
    ParseStringShortens(s);
    var os := ParseString(s);
    ParseCharShortens(os.rest, ':');
    var colon := ParseChar(os.rest, ':');
    ParseCharShortens(colon.rest, '[');
    var open := ParseChar(colon.rest, '[');
    ParseNamesShortens(open.rest, []);
    ParseCharShortens(ParseNames(open.rest, []).rest, ']');
  }

  // ---- the parser, with its pointer into a text that a NUL ends ----

  class Reader {
    const text: string
    var p: nat

    constructor (text: string)
      requires NUL !in text
      ensures this.text == text && p == 0 && Valid()
    {
      this.text := text;
      p := 0;
    }

    ghost predicate Valid()
      reads this
    {
      NUL !in text && p <= |text|
    }

    // The text that is left
    ghost function Left(): string
      reads this
      requires p <= |text|
    {
      text[p..]
    }

    // The character at i, up to the NUL and no further
    function At(i: nat): char
      requires i <= |text|
    {
      if i < |text| then text[i] else NUL
    }

    method SkipBlank()
      requires Valid()
      modifies this
      ensures Valid() && Left() == Skip(old(Left()))
    {
      while IsCSpace(At(p))
        invariant Valid() && Skip(Left()) == Skip(old(Left()))
        decreases |text| - p
      {
        assert p < |text|;
        assert text[p..][0] == text[p] && text[p..][1..] == text[p + 1..];
        p := p + 1;
      }
      assert p < |text| ==> text[p..][0] == text[p];
    }

    // tryChar and parseChar, which differ by an error message
    method TryChar(x: char) returns (ok: bool)
      requires Valid() && x != NUL
      modifies this
      ensures Valid() && ok == ParseChar(old(Left()), x).ok && Left() == ParseChar(old(Left()), x).rest
    {
      SkipBlank();
      assert p < |text| ==> text[p..][0] == text[p] && text[p..][1..] == text[p + 1..];
      if x == At(p) {
        p := p + 1;
        return true;
      } else {
        return false;
      }
    }

    // The loop of parseString, up to a quote or to the NUL
    method Characters() returns (str: string)
      requires Valid()
      modifies this
      ensures Valid()
      ensures var n := QuoteAt(old(Left())); str == old(Left())[..n] && Left() == old(Left())[n..]
    {
      str := "";
      while At(p) != NUL && At(p) != QUOTE
        invariant old(p) <= p <= |text| && str == text[old(p)..p]
        invariant QuoteAt(old(Left())) == |str| + QuoteAt(Left())
        decreases |text| - p
      {
        assert text[p..][0] == text[p] && text[p..][1..] == text[p + 1..];
        str := str + [At(p)];
        p := p + 1;
      }
      assert p < |text| ==> text[p..][0] == text[p];
      assert QuoteAt(Left()) == 0;
    }

    // parseString
    method ParseQuoted() returns (ok: bool, s: string)
      requires Valid()
      modifies this
      ensures Valid()
      ensures ok == ParseString(old(Left())).ok && Left() == ParseString(old(Left())).rest
      ensures ok ==> s == ParseString(old(Left())).value
    {
      hide Skip, QuoteAt;
      s := "";
      SkipBlank();
      var saved := p;
      ghost var q := Left();
      assert p < |text| ==> q[0] == text[p];
      var first := At(p);
      p := p + 1;
      if first == QUOTE {
        assert q[1..] == Left();
        var str := Characters();
        ghost var n := QuoteAt(q[1..]);
        assert Left() == q[n + 1..];
        assert p < |text| ==> text[p] == Left()[0];
        assert p < |text| <==> n + 1 < |q|;
        var last := At(p);
        p := p + 1;
        if last == QUOTE {
          s := str;
          assert s == q[1..n + 1];
          assert text[p..] == q[n + 2..];
          return true, s;
        }
        EndOrQuote(q[1..]);
      }
      p := saved;
      return false, s;
    }

    method ParseArchitecturesList(v: seq<string>) returns (ok: bool, names: seq<string>)
      requires Valid()
      modifies this
      ensures Valid()
      ensures ok == ParseNames(old(Left()), v).ok && Left() == ParseNames(old(Left()), v).rest
      ensures names == ParseNames(old(Left()), v).value
    {
      hide ParseString, ParseChar;
      names := v;
      var more := true;
      while more
        invariant Valid()
        invariant more ==> ParseNames(Left(), names) == ParseNames(old(Left()), v)
        invariant !more ==> Parsed(true, names, Left()) == ParseNames(old(Left()), v)
        decreases more, |text| - p
      {
        ParseStringShortens(Left());
        var good, s := ParseQuoted();
        if good {
          names := names + [s];
        } else {
          return false, names;
        }
        ParseCharShortens(Left(), ',');
        more := TryChar(',');
      }
      ok := true;
    }

    method ParseOperatingSystem() returns (ok: bool, os: string, al: seq<string>)
      requires Valid()
      modifies this
      ensures Valid()
      ensures ok == ParseSystem(old(Left())).ok && Left() == ParseSystem(old(Left())).rest
      ensures ok ==> (os, al) == ParseSystem(old(Left())).value
    {
      hide ParseString, ParseChar, ParseNames;
      al := [];
      ok, os := ParseQuoted();
      if ok {
        ok := TryChar(':');
      }
      if ok {
        ok := TryChar('[');
      }
      if ok {
        ok, al := ParseArchitecturesList([]);
      }
      if ok {
        ok := TryChar(']');
      }
    }

    // parseOperatingSystemsList on a vector and a map that are empty at the call
    method ParseOperatingSystemsList() returns (ok: bool, platforms: seq<string>, targets: map<string, seq<string>>)
      requires Valid()
      modifies this
      ensures Valid()
      ensures ok == ParseRecord(old(Left())).ok && Left() == ParseRecord(old(Left())).rest
      ensures platforms == Platforms(ParseRecord(old(Left())).value)
      ensures |platforms| == |ParseRecord(old(Left())).value|
      ensures forall i :: 0 <= i < |platforms| ==> platforms[i] == ParseRecord(old(Left())).value[i].0
      ensures targets == Targets(ParseRecord(old(Left())).value)
    {
      hide ParseSystem, ParseChar;
      platforms, targets := [], map[];
      var brace := TryChar('{');
      ghost var start := Left();
      ghost var systems: seq<System> := [];
      var more := true;
      while more
        invariant Valid()
        invariant more ==> ParseSystems(Left(), systems) == ParseSystems(start, [])
        invariant !more ==> Parsed(true, systems, Left()) == ParseSystems(start, [])
        invariant platforms == Platforms(systems) && targets == Targets(systems)
        decreases more, |text| - p
      {
        ParseSystemShortens(Left());
        var good, os, archlist := ParseOperatingSystem();
        if good {
          platforms := platforms + [os];
          targets := targets[os := archlist];
          assert (systems + [(os, archlist)])[..|systems|] == systems;
          systems := systems + [(os, archlist)];
        } else {
          return false, platforms, targets;
        }
        ParseCharShortens(Left(), ',');
        more := TryChar(',');
      }
      ok := TryChar('}');
    }
  }

  // ---- the texts of records, with their blanks ----

  datatype Name = Name(blank: string, text: string)

  // The elements of a list, each followed by the blank before its comma but the last one
  datatype Names = Last(item: Name) | More(item: Name, gap: string, others: Names)

  datatype Entry = Entry(name: Name, colon: string, open: string, names: Names, close: string)

  datatype Entries = LastEntry(item: Entry) | MoreEntries(item: Entry, gap: string, others: Entries)

  // The brace at the start may be missing; start is the blank before it.
  datatype Record = Record(braced: bool, start: string, entries: Entries, close: string)

  function NameText(n: Name): string { n.blank + ([QUOTE] + (n.text + [QUOTE])) }

  function NamesText(l: Names): string {
    match l
    case Last(n) => NameText(n)
    case More(n, gap, others) => NameText(n) + (gap + ("," + NamesText(others)))
  }

  function EntryText(e: Entry): string {
    NameText(e.name) + (e.colon + (":" + (e.open + ("[" + (NamesText(e.names) + (e.close + "]"))))))
  }

  function EntriesText(l: Entries): string {
    match l
    case LastEntry(e) => EntryText(e)
    case MoreEntries(e, gap, others) => EntryText(e) + (gap + ("," + EntriesText(others)))
  }

  function RecordText(r: Record): string {
    (if r.braced then r.start + "{" else "") + (EntriesText(r.entries) + (r.close + "}"))
  }

  predicate ValidName(n: Name) { CBlank(n.blank) && QUOTE !in n.text }

  predicate ValidNames(l: Names) {
    match l
    case Last(n) => ValidName(n)
    case More(n, gap, others) => ValidName(n) && CBlank(gap) && ValidNames(others)
  }

  predicate ValidEntry(e: Entry) {
    ValidName(e.name) && CBlank(e.colon) && CBlank(e.open) && ValidNames(e.names) && CBlank(e.close)
  }

  predicate ValidEntries(l: Entries) {
    match l
    case LastEntry(e) => ValidEntry(e)
    case MoreEntries(e, gap, others) => ValidEntry(e) && CBlank(gap) && ValidEntries(others)
  }

  predicate ValidRecord(r: Record) { CBlank(r.start) && ValidEntries(r.entries) && CBlank(r.close) }

  // What a text means
  function NamesOf(l: Names): seq<string> {
    match l
    case Last(n) => [n.text]
    case More(n, _, others) => [n.text] + NamesOf(others)
  }

  function SystemOf(e: Entry): System { (e.name.text, NamesOf(e.names)) }

  function SystemsOf(l: Entries): seq<System> {
    match l
    case LastEntry(e) => [SystemOf(e)]
    case MoreEntries(e, _, others) => [SystemOf(e)] + SystemsOf(others)
  }

  // ---- every text of a record is accepted, with its meaning ----

  lemma {:induction false} SkipBlanks(blank: string, s: string)
    requires CBlank(blank) && (s != "" ==> !IsCSpace(s[0]))
    ensures Skip(blank + s) == s
    decreases |blank|
  {
    if blank == "" {
      assert blank + s == s;
    } else {
      assert (blank + s)[0] == blank[0] && (blank + s)[1..] == blank[1..] + s;
      SkipBlanks(blank[1..], s);
    }
  }

  lemma ReadsChar(blank: string, x: char, after: string)
    requires CBlank(blank) && !IsCSpace(x)
    ensures ParseChar(blank + ([x] + after), x) == Parsed(true, (), after)
  {
    SkipBlanks(blank, [x] + after);
    assert ([x] + after)[1..] == after;
  }

  // A blank and another character: the blank is skipped and the test fails.
  lemma MissesChar(blank: string, x: char, y: char, after: string)
    requires CBlank(blank) && !IsCSpace(y) && x != y
    ensures ParseChar(blank + ([y] + after), x) == Parsed(false, (), Skip(blank + ([y] + after)))
    ensures Skip(blank + ([y] + after)) == [y] + after
  {
    SkipBlanks(blank, [y] + after);
  }

  lemma {:induction false} QuoteAfter(name: string, after: string)
    requires QUOTE !in name
    ensures QuoteAt(name + ([QUOTE] + after)) == |name|
    decreases |name|
  {
    var s := name + ([QUOTE] + after);
    if name == "" {
      assert s[0] == QUOTE;
    } else {
      assert s[0] == name[0] && s[1..] == name[1..] + ([QUOTE] + after);
      QuoteAfter(name[1..], after);
    }
  }

  lemma ReadsName(n: Name, after: string)
    requires ValidName(n)
    ensures ParseString(NameText(n) + after) == Parsed(true, n.text, after)
  {
    var q := [QUOTE] + (n.text + ([QUOTE] + after));
    assert NameText(n) + after == n.blank + q;
    SkipBlanks(n.blank, q);
    assert q[1..] == n.text + ([QUOTE] + after);
    QuoteAfter(n.text, after);
    assert q[1..|n.text| + 1] == n.text && q[|n.text| + 2..] == after;
  }

  lemma CommaIsNoSpace()
    ensures !IsCSpace(',')
  {
  }

  // A list is followed by a blank and by a character that is no comma.
  lemma {:induction false} ReadsNames(l: Names, v: seq<string>, blank: string, y: char, after: string)
    requires ValidNames(l) && CBlank(blank) && !IsCSpace(y) && y != ','
    ensures ParseNames(NamesText(l) + (blank + ([y] + after)), v) == Parsed(true, v + NamesOf(l), [y] + after)
    decreases l
  {
    hide ParseString, ParseChar, NameText, CBlank, IsCSpace, ValidName;
    CommaIsNoSpace();
    var tail := blank + ([y] + after);
    match l {
      case Last(n) =>
        ReadsName(n, tail);
        MissesChar(blank, ',', y, after);
      case More(n, gap, others) =>
        var more := "," + (NamesText(others) + tail);
        assert NamesText(l) + tail == NameText(n) + (gap + more);
        ReadsName(n, gap + more);
        ReadsChar(gap, ',', NamesText(others) + tail);
        ReadsNames(others, v + [n.text], blank, y, after);
        assert v + [n.text] + NamesOf(others) == v + NamesOf(l);
    }
  }

  lemma ReadsEntry(e: Entry, after: string)
    requires ValidEntry(e)
    ensures ParseSystem(EntryText(e) + after) == Parsed(true, SystemOf(e), after)
  {
    assert CBlank("");
    hide ParseString, ParseChar, ParseNames, NameText, NamesText, NamesOf, CBlank, ValidName, ValidNames;
    var s5 := e.close + ("]" + after);
    var s4 := NamesText(e.names) + s5;
    var s3 := e.open + ("[" + s4);
    var s2 := e.colon + (":" + s3);
    EntrySplit(e, after);
    ReadsName(e.name, s2);
    ReadsChar(e.colon, ':', s3);
    ReadsChar(e.open, '[', s4);
    ReadsNames(e.names, [], e.close, ']', after);
    assert [] + NamesOf(e.names) == NamesOf(e.names);
    ReadsChar("", ']', after);
    assert "" + ("]" + after) == "]" + after;
  }

  lemma EntrySplit(e: Entry, after: string)
    ensures EntryText(e) + after
      == NameText(e.name) + (e.colon + (":" + (e.open + ("[" + (NamesText(e.names) + (e.close + ("]" + after)))))))
  {
    hide NameText, NamesText;
    var s5 := e.close + "]";
    var s4 := NamesText(e.names) + s5;
    var s3 := e.open + ("[" + s4);
    var s2 := e.colon + (":" + s3);
    assert s5 + after == e.close + ("]" + after);
    assert s4 + after == NamesText(e.names) + (s5 + after);
    assert s3 + after == e.open + ("[" + (s4 + after));
    assert s2 + after == e.colon + (":" + (s3 + after));
    assert NameText(e.name) + s2 + after == NameText(e.name) + (s2 + after);
  }

  lemma {:induction false} ReadsEntries(l: Entries, v: seq<System>, blank: string, y: char, after: string)
    requires ValidEntries(l) && CBlank(blank) && !IsCSpace(y) && y != ','
    ensures ParseSystems(EntriesText(l) + (blank + ([y] + after)), v) == Parsed(true, v + SystemsOf(l), [y] + after)
    decreases l
  {
    hide ParseSystem, ParseChar, EntryText, CBlank, IsCSpace, ValidEntry, SystemOf;
    CommaIsNoSpace();
    var tail := blank + ([y] + after);
    match l {
      case LastEntry(e) =>
        ReadsEntry(e, tail);
        MissesChar(blank, ',', y, after);
      case MoreEntries(e, gap, others) =>
        var more := "," + (EntriesText(others) + tail);
        assert EntriesText(l) + tail == EntryText(e) + (gap + more);
        ReadsEntry(e, gap + more);
        ReadsChar(gap, ',', EntriesText(others) + tail);
        ReadsEntries(others, v + [SystemOf(e)], blank, y, after);
        assert v + [SystemOf(e)] + SystemsOf(others) == v + SystemsOf(l);
    }
  }

  // The text of a list of entries begins with a blank and a quote.
  lemma EntriesStart(l: Entries, after: string) returns (blank: string, more: string)
    requires ValidEntries(l)
    ensures CBlank(blank) && EntriesText(l) + after == blank + ([QUOTE] + more)
  {
    hide NamesText;
    var e := l.item;
    var following :=
      match l
      case LastEntry(_) => after
      case MoreEntries(_, gap, others) => gap + ("," + EntriesText(others)) + after;
    assert EntriesText(l) + after == EntryText(e) + following;
    EntrySplit(e, following);
    blank := e.name.blank;
    var rest := e.colon + (":" + (e.open + ("[" + (NamesText(e.names) + (e.close + ("]" + following))))));
    more := e.name.text + ([QUOTE] + rest);
    assert NameText(e.name) + rest == blank + ([QUOTE] + more);
  }

  // Complete: whatever the blanks, and whatever follows, the text of a record is read to its end and
  // gives the names and the architectures that it is made of.
  lemma Complete(r: Record, after: string)
    requires ValidRecord(r)
    ensures ParseRecord(RecordText(r) + after) == Parsed(true, SystemsOf(r.entries), after)
  {
    hide ParseSystems, ParseChar, EntriesText, CBlank, ValidEntries, SystemsOf;
    var tail := r.close + ("}" + after);
    var body := EntriesText(r.entries) + tail;
    RecordSplit(r, after);
    if r.braced {
      ReadsChar(r.start, '{', body);
    } else {
      var blank, more := EntriesStart(r.entries, tail);
      MissesChar(blank, '{', QUOTE, more);
    }
    RecordBody(r, after, body);
  }

  lemma RecordSplit(r: Record, after: string)
    ensures var body := EntriesText(r.entries) + (r.close + ("}" + after));
            RecordText(r) + after == if r.braced then r.start + ("{" + body) else body
  {
    hide EntriesText;
    var entries := EntriesText(r.entries);
    assert entries + (r.close + "}") + after == entries + (r.close + ("}" + after));
  }

  lemma RecordBody(r: Record, after: string, body: string)
    requires ValidRecord(r) && body == EntriesText(r.entries) + (r.close + ("}" + after))
    ensures ParseSystems(body, []) == Parsed(true, SystemsOf(r.entries), "}" + after)
    ensures ParseSystems(Skip(body), []) == ParseSystems(body, [])
    ensures ParseChar("}" + after, '}') == Parsed(true, (), after)
  {
    hide ParseSystems, EntriesText, ValidEntries, SystemsOf;
    ReadsEntries(r.entries, [], r.close, '}', after);
    assert [] + SystemsOf(r.entries) == SystemsOf(r.entries);
    SkippedSystems(body, []);
    assert "" + ("}" + after) == "}" + after;
    ReadsChar("", '}', after);
  }

  // A blank at the start of the text makes no difference.
  lemma {:induction false} SkipTwice(s: string)
    ensures Skip(Skip(s)) == Skip(s)
  {
    if s != "" && IsCSpace(s[0]) {
      SkipTwice(s[1..]);
    }
  }

  lemma SkippedSystems(s: string, v: seq<System>)
    ensures ParseSystems(Skip(s), v) == ParseSystems(s, v)
  {
    hide ParseSystem, ParseChar;
    SkippedSystem(s);
  }

  lemma SkippedSystem(s: string)
    ensures ParseSystem(Skip(s)) == ParseSystem(s)
  {
    hide ParseNames, ParseChar, ParseString;
    SkippedString(s);
  }

  lemma SkippedString(s: string)
    ensures ParseString(Skip(s)) == ParseString(s)
  {
    SkipTwice(s);
  }

  // ---- only such texts are accepted ----

  lemma {:induction false} SkippedBlank(s: string) returns (blank: string)
    ensures CBlank(blank) && s == blank + Skip(s)
    ensures Skip(s) != "" ==> !IsCSpace(Skip(s)[0])
  {
    hide IsCSpace;
    if s != "" && IsCSpace(s[0]) {
      var b := SkippedBlank(s[1..]);
      blank := MoreBlank(s, b, Skip(s[1..]));
    } else {
      blank := "";
      assert s == blank + s;
    }
  }

  lemma MoreBlank(s: string, b: string, rest: string) returns (blank: string)
    requires s != "" && IsCSpace(s[0]) && CBlank(b) && s[1..] == b + rest
    ensures CBlank(blank) && s == blank + rest
  {
    hide IsCSpace;
    blank := [s[0]] + b;
    assert s == [s[0]] + s[1..];
  }

  lemma AcceptsChar(s: string, x: char) returns (blank: string)
    ensures CBlank(blank)
    ensures ParseChar(s, x).ok ==> s == blank + ([x] + ParseChar(s, x).rest)
    ensures !ParseChar(s, x).ok ==> s == blank + ParseChar(s, x).rest && ParseChar(s, x).rest == Skip(s)
  {
    blank := SkippedBlank(s);
    var q := Skip(s);
    if q != "" && q[0] == x {
      assert q == [x] + q[1..];
    }
  }

  lemma {:induction false} NoQuoteBefore(s: string)
    ensures QUOTE !in s[..QuoteAt(s)]
  {
    if s != "" && s[0] != QUOTE {
      NoQuoteBefore(s[1..]);
      assert s[..QuoteAt(s)] == [s[0]] + s[1..][..QuoteAt(s[1..])];
    }
  }

  lemma AcceptsName(s: string) returns (n: Name)
    requires ParseString(s).ok
    ensures ValidName(n) && n.text == ParseString(s).value
    ensures s == NameText(n) + ParseString(s).rest
  {
    hide Skip, QuoteAt;
    var blank := SkippedBlank(s);
    var q := Skip(s);
    var k := QuoteAt(q[1..]);
    NoQuoteBefore(q[1..]);
    EndOrQuote(q[1..]);
    n := Name(blank, q[1..k + 1]);
    assert q[1..][..k] == n.text;
    assert q[1..][k] == q[k + 1];
    QuotedParts(q, k);
    assert s == NameText(n) + q[k + 2..];
  }

  lemma QuotedParts(q: string, k: nat)
    requires k + 1 < |q| && q[0] == QUOTE && q[k + 1] == QUOTE
    ensures q == [QUOTE] + (q[1..k + 1] + [QUOTE]) + q[k + 2..]
  {
  }

  // The blank that follows the last element has been skipped too.
  lemma {:induction false} AcceptsNames(s: string, v: seq<string>) returns (l: Names, blank: string)
    requires ParseNames(s, v).ok
    ensures ValidNames(l) && CBlank(blank)
    ensures ParseNames(s, v).value == v + NamesOf(l)
    ensures s == NamesText(l) + (blank + ParseNames(s, v).rest)
    decreases |s|
  {
    hide ParseString, ParseChar, NameText, CBlank, ValidName;
    var n := AcceptsName(s);
    ParseStringShortens(s);
    var rest := ParseString(s).rest;
    var gap := AcceptsChar(rest, ',');
    ParseCharShortens(rest, ',');
    var comma := ParseChar(rest, ',');
    if comma.ok {
      var others;
      others, blank := AcceptsNames(comma.rest, v + [n.text]);
      l := More(n, gap, others);
      assert v + [n.text] + NamesOf(others) == v + NamesOf(l);
      var tail := blank + ParseNames(s, v).rest;
      assert NamesText(l) + tail == NameText(n) + (gap + ("," + (NamesText(others) + tail)));
    } else {
      l, blank := Last(n), gap;
    }
  }

  lemma BlankConcat(a: string, b: string)
    requires CBlank(a) && CBlank(b)
    ensures CBlank(a + b)
  {
  }

  lemma AcceptsEntry(s: string) returns (e: Entry)
    requires ParseSystem(s).ok
    ensures ValidEntry(e) && SystemOf(e) == ParseSystem(s).value
    ensures s == EntryText(e) + ParseSystem(s).rest
  {
    hide ParseString, ParseChar, ParseNames, NameText, NamesText, NamesOf, CBlank, ValidName, ValidNames;
    hide EntryText;
    var name := AcceptsName(s);
    var os := ParseString(s);
    var colon := AcceptsChar(os.rest, ':');
    var r2 := ParseChar(os.rest, ':').rest;
    var open := AcceptsChar(r2, '[');
    var r3 := ParseChar(r2, '[').rest;
    var names, b1 := AcceptsNames(r3, []);
    assert [] + NamesOf(names) == NamesOf(names);
    var r4 := ParseNames(r3, []).rest;
    var b2 := AcceptsChar(r4, ']');
    var r5 := ParseChar(r4, ']').rest;
    e := Entry(name, colon, open, names, b1 + b2);
    assert b1 + (b2 + ("]" + r5)) == e.close + ("]" + r5);
    BlankConcat(b1, b2);
    EntrySplit(e, r5);
  }

  lemma {:induction false} AcceptsEntries(s: string, v: seq<System>) returns (l: Entries, blank: string)
    requires ParseSystems(s, v).ok
    ensures ValidEntries(l) && CBlank(blank)
    ensures ParseSystems(s, v).value == v + SystemsOf(l)
    ensures s == EntriesText(l) + (blank + ParseSystems(s, v).rest)
    decreases |s|
  {
    hide ParseSystem, ParseChar, EntryText, CBlank, ValidEntry, SystemOf;
    var e := AcceptsEntry(s);
    ParseSystemShortens(s);
    var rest := ParseSystem(s).rest;
    var gap := AcceptsChar(rest, ',');
    ParseCharShortens(rest, ',');
    var comma := ParseChar(rest, ',');
    if comma.ok {
      var others;
      others, blank := AcceptsEntries(comma.rest, v + [SystemOf(e)]);
      l := MoreEntries(e, gap, others);
      assert v + [SystemOf(e)] + SystemsOf(others) == v + SystemsOf(l);
      var tail := blank + ParseSystems(s, v).rest;
      assert EntriesText(l) + tail == EntryText(e) + (gap + ("," + (EntriesText(others) + tail)));
    } else {
      l, blank := LastEntry(e), gap;
    }
  }

  lemma AcceptsBody(body: string) returns (entries: Entries, close: string)
    requires ParseSystems(body, []).ok && ParseChar(ParseSystems(body, []).rest, '}').ok
    ensures ValidEntries(entries) && CBlank(close) && SystemsOf(entries) == ParseSystems(body, []).value
    ensures var after := ParseChar(ParseSystems(body, []).rest, '}').rest;
            body == EntriesText(entries) + (close + ("}" + after))
  {
    hide ParseSystems, ParseChar, EntriesText, ValidEntries, SystemsOf, CBlank;
    var l, b1 := AcceptsEntries(body, []);
    assert [] + SystemsOf(l) == SystemsOf(l);
    var r1 := ParseSystems(body, []).rest;
    var b2 := AcceptsChar(r1, '}');
    var r2 := ParseChar(r1, '}').rest;
    entries, close := l, b1 + b2;
    BlankConcat(b1, b2);
    assert b1 + (b2 + ("}" + r2)) == close + ("}" + r2);
  }

  // Sound: what is read with success is the text of a record with this meaning.
  lemma Sound(s: string) returns (r: Record)
    requires ParseRecord(s).ok
    ensures ValidRecord(r) && SystemsOf(r.entries) == ParseRecord(s).value
    ensures s == RecordText(r) + ParseRecord(s).rest
  {
    hide ParseSystems, ParseChar, EntriesText, CBlank, ValidEntries, SystemsOf, RecordText;
    var brace := ParseChar(s, '{');
    var start := AcceptsChar(s, '{');
    if !brace.ok {
      SkippedSystems(s, []);
    }
    var body := if brace.ok then brace.rest else s;
    var entries, close := AcceptsBody(body);
    r := Record(brace.ok, start, entries, close);
    RecordSplit(r, ParseRecord(s).rest);
  }

  // A text is accepted exactly when it starts with the text of a record.
  lemma AcceptedTexts(s: string)
    ensures ParseRecord(s).ok <==> exists r, after :: ValidRecord(r) && s == RecordText(r) + after
  {
    hide ParseRecord, ValidRecord, RecordText;
    if ParseRecord(s).ok {
      var r := Sound(s);
    }
    if r, after :| ValidRecord(r) && s == RecordText(r) + after {
      Complete(r, after);
    }
  }

  // Where a quoted string is refused: behind the blanks, when there is no quote, or no second one.
  lemma RefusedString(s: string)
    ensures ParseString(s).ok <==> Skip(s) != "" && Skip(s)[0] == QUOTE && QUOTE in Skip(s)[1..]
    ensures !ParseString(s).ok ==> ParseString(s).rest == Skip(s)
  {
    hide Skip;
    var q := Skip(s);
    if q != "" && q[0] == QUOTE {
      NoQuoteBefore(q[1..]);
      EndOrQuote(q[1..]);
      var n := QuoteAt(q[1..]);
      assert n == |q[1..]| ==> q[1..][..n] == q[1..];
      assert n < |q[1..]| ==> q[1..][n] == QUOTE;
    }
  }

  // The last record of a name decides.
  lemma {:induction false} TargetsOfLast(systems: seq<System>, i: nat)
    requires i < |systems| && forall j :: i < j < |systems| ==> systems[j].0 != systems[i].0
    ensures systems[i].0 in Targets(systems) && Targets(systems)[systems[i].0] == systems[i].1
  {
    if i < |systems| - 1 {
      TargetsOfLast(systems[..|systems| - 1], i);
    }
  }

  lemma {:induction false} TargetsKeys(systems: seq<System>)
    ensures forall name :: name in Targets(systems) <==> name in Platforms(systems)
  {
    if systems != [] {
      TargetsKeys(systems[..|systems| - 1]);
      assert Platforms(systems) == Platforms(systems[..|systems| - 1]) + [systems[|systems| - 1].0];
    }
  }
}
