// The connection files of src/Audio/FJUI.h, and the renaming of clients when windows are imported
// under new indexes (copyWindowFolder of src/MainStructure/FLApp.cpp).
module Connections {
  import opened CText
  import opened Options
  import opened Decimal
  import opened KeyOrder

  type Connection = (string, string)

  const QUOTE := '\"'

  // ---- saving ----

  // A stream prints a string up to its first NUL.
  function Quoted(name: string): string { [QUOTE] + (CStr(name) + [QUOTE]) }

  function SavedOne(c: Connection): string { "\n" + (Quoted(c.0) + (" " + Quoted(c.1))) }

  function Saved(connections: seq<Connection>): string {
    if connections == [] then "" else SavedOne(connections[0]) + Saved(connections[1..])
  }

  lemma {:induction false} SavedAppend(connections: seq<Connection>, c: Connection)
    ensures Saved(connections + [c]) == Saved(connections) + SavedOne(c)
  {
    hide SavedOne;
    if connections == [] {
      assert connections + [c] == [c];
      assert Saved([c]) == SavedOne(c) + Saved([]) == SavedOne(c);
    } else {
      assert (connections + [c])[1..] == connections[1..] + [c];
      SavedAppend(connections[1..], c);
      assert SavedOne(connections[0]) + (Saved(connections[1..]) + SavedOne(c))
          == SavedOne(connections[0]) + Saved(connections[1..]) + SavedOne(c);
    }
  }

  // The text of a list: each connection on its line, as two quoted names with a space between them
  lemma SavedText(connections: seq<Connection>, c: Connection)
    requires NUL !in c.0 && NUL !in c.1
    ensures Saved([]) == ""
    ensures Saved(connections + [c]) == Saved(connections) + "\n" + ("\"" + c.0 + "\"") + " " + ("\"" + c.1 + "\"")
  {
    hide CStr, Quoted;
    QuotedText(c.0);
    QuotedText(c.1);
    SavedAppend(connections, c);
    Line(Saved(connections), Quoted(c.0), Quoted(c.1));
  }

  lemma QuotedText(name: string)
    requires NUL !in name
    ensures Quoted(name) == "\"" + name + "\""
  {
    hide CStr;
    CStrOfClean(name);
  }

  lemma Line(before: string, a: string, b: string)
    ensures before + ("\n" + (a + (" " + b))) == before + "\n" + a + " " + b
  {
  }

  // ---- recalling ----

  // The state of the character loop: how many quotes of the current connection are read, its two
  // names so far, and the connections found.
  datatype Scan = Scan(gORn: int, g: string, n: string, found: seq<Connection>)

  const START := Scan(0, "", "", [])

  function Read(st: Scan, cote: char): Scan {
    var gORn := if cote == QUOTE then st.gORn + 1 else st.gORn;
    var g := if cote != QUOTE && st.gORn == 1 then st.g + [cote] else st.g;
    var n := if cote != QUOTE && st.gORn == 3 then st.n + [cote] else st.n;
    if gORn == 4 then Scan(0, "", "", st.found + [(g, n)]) else Scan(gORn, g, n, st.found)
  }

  function ReadAll(st: Scan, text: string): Scan
    decreases |text|
  {
    if text == "" then st else ReadAll(Read(st, text[0]), text[1..])
  }

  function Recalled(text: string): seq<Connection> { ReadAll(START, text).found }

  lemma {:induction false} ReadConcat(st: Scan, s: string, t: string)
    ensures ReadAll(st, s + t) == ReadAll(ReadAll(st, s), t)
    decreases |s|
  {
    hide Read;
    if s == "" {
      assert s + t == t;
    } else {
      assert (s + t)[0] == s[0] && (s + t)[1..] == s[1..] + t;
      ReadConcat(Read(st, s[0]), s[1..], t);
    }
  }

  // A connection file, rewritten in place
  class ConnectionFile {
    var text: string

    constructor (initial: string)
      ensures text == initial
    {
      text := initial;
    }

    method SaveConnections(connections: seq<Connection>)
      modifies this
      ensures text == Saved(connections)
    {
      hide SavedOne;
      text := "";
      for i := 0 to |connections|
        invariant text == Saved(connections[..i])
      {
        text := text + SavedOne(connections[i]);
        assert connections[..i + 1] == connections[..i] + [connections[i]];
        SavedAppend(connections[..i], connections[i]);
      }
      assert connections[..|connections|] == connections;
    }

    method RecallConnections() returns (connections: seq<Connection>)
      ensures connections == Recalled(text)
    {
      var gORn, g, n := 0, "", "";
      connections := [];
      for i := 0 to |text|
        invariant Scan(gORn, g, n, connections) == ReadAll(START, text[..i])
      {
        var cote := text[i];
        assert text[..i + 1] == text[..i] + [cote];
        ReadConcat(START, text[..i], [cote]);
        assert ReadAll(ReadAll(START, text[..i]), [cote]) == Read(ReadAll(START, text[..i]), cote);
        if cote == QUOTE {
          gORn := gORn + 1;
        } else if gORn == 1 {
          g := g + [cote];
        } else if gORn == 3 {
          n := n + [cote];
        }
        if gORn == 4 {
          connections := connections + [(g, n)];
          gORn, g, n := 0, "", "";
        }
      }
      assert text[..|text|] == text;
    }

    // Renames the clients in the file.
    method Update(table: seq<(string, string)>)
      modifies this
      ensures text == Saved(RenamedAll(Recalled(old(text)), table))
    {
      var connections := RecallConnections();
      ghost var before := connections;
      for i := 0 to |connections|
        invariant |connections| == |before| && connections[i..] == before[i..]
        invariant connections[..i] == RenamedAll(before, table)[..i]
      {
        var first := RenameClient(connections[i].0, table);
        var second := RenameClient(connections[i].1, table);
        assert connections[i] == before[i];
        connections := connections[i := (first, second)];
      }
      assert connections == RenamedAll(before, table);
      SaveConnections(connections);
    }

    // The part of copyWindowFolder that follows the copy of the folder: the index changes as a
    // table of client names, in the order of these names.
    method ChangeIndexes(indexChanges: map<int, int>)
      modifies this
      ensures text == Changed(old(text), indexChanges)
    {
      hide InOrder, TextOrder, MapOrder, Recalled, Saved, Renamed, Table;
      var keys := InOrder(indexChanges.Keys);
      var order := [];
      assert keys[..0] == [];
      NoTextOrder();
      for i := 0 to |keys|
        invariant text == old(text) && order == TextOrder(keys[..i])
      {
        order := InsertByText(order, keys[i]);
        NextTextOrder(keys, i);
      }
      assert keys[..|keys|] == keys;
      MapOrderOf(indexChanges.Keys);
      Update(Table(order, indexChanges));
    }
  }

  ghost predicate Clean(name: string) { QUOTE !in name && NUL !in name }

  ghost predicate AllClean(connections: seq<Connection>) {
    forall i :: 0 <= i < |connections| ==> Clean(connections[i].0) && Clean(connections[i].1)
  }

  // What characters other than quotes do: they extend the name that is being read, if any.
  function Grown(st: Scan, s: string): Scan {
    if st.gORn == 1 then st.(g := st.g + s) else if st.gORn == 3 then st.(n := st.n + s) else st
  }

  lemma ReadCharacter(st: Scan, c: char)
    requires c != QUOTE && 0 <= st.gORn < 4
    ensures Read(st, c) == Grown(st, [c]) && Grown(st, [c]).gORn == st.gORn
  {
  }

  lemma GrownTwice(st: Scan, s: string, t: string)
    ensures Grown(Grown(st, s), t) == Grown(st, s + t) && Grown(st, "") == st
  {
    assert st.g + s + t == st.g + (s + t) && st.n + s + t == st.n + (s + t);
    assert st.g + "" == st.g && st.n + "" == st.n;
  }

  lemma {:induction false} ReadName(st: Scan, s: string)
    requires QUOTE !in s && 0 <= st.gORn < 4
    ensures ReadAll(st, s) == Grown(st, s)
    decreases |s|
  {
    hide Read, Grown;
    if s == "" {
      GrownTwice(st, "", "");
    } else {
      ReadCharacter(st, s[0]);
      ReadName(Grown(st, [s[0]]), s[1..]);
      GrownTwice(st, [s[0]], s[1..]);
      assert [s[0]] + s[1..] == s;
    }
  }

  lemma ReadQuoted(st: Scan, name: string)
    requires Clean(name) && (st.gORn == 0 || st.gORn == 2)
    ensures ReadAll(st, Quoted(name)) ==
      if st.gORn == 0 then st.(gORn := 2, g := st.g + name) else Scan(0, "", "", st.found + [(st.g, st.n + name)])
  {
    CStrOfClean(name);
    var inside := st.(gORn := st.gORn + 1);
    assert Quoted(name)[0] == QUOTE && Quoted(name)[1..] == name + [QUOTE];
    assert ReadAll(st, Quoted(name)) == ReadAll(inside, name + [QUOTE]);
    ReadConcat(inside, name, [QUOTE]);
    ReadName(inside, name);
    ReadOne(ReadAll(inside, name), QUOTE);
  }

  lemma ReadOne(st: Scan, c: char)
    ensures ReadAll(st, [c]) == Read(st, c)
  {
    assert [c][1..] == "";
  }

  lemma ReadSavedOne(found: seq<Connection>, c: Connection)
    requires Clean(c.0) && Clean(c.1)
    ensures ReadAll(Scan(0, "", "", found), SavedOne(c)) == Scan(0, "", "", found + [c])
  {
    hide Quoted, ReadAll, Clean;
    var st := Scan(0, "", "", found);
    ReadConcat(st, "\n", Quoted(c.0) + (" " + Quoted(c.1)));
    ReadOne(st, '\n');
    ReadConcat(st, Quoted(c.0), " " + Quoted(c.1));
    ReadQuoted(st, c.0);
    assert "" + c.0 == c.0 && "" + c.1 == c.1;
    var half := Scan(2, c.0, "", found);
    ReadConcat(half, " ", Quoted(c.1));
    ReadOne(half, ' ');
    ReadQuoted(half, c.1);
  }

  lemma {:induction false} ReadSaved(found: seq<Connection>, connections: seq<Connection>)
    requires AllClean(connections)
    ensures ReadAll(Scan(0, "", "", found), Saved(connections)) == Scan(0, "", "", found + connections)
    decreases |connections|
  {
    hide SavedOne, Clean;
    var st := Scan(0, "", "", found);
    if connections == [] {
      assert found + connections == found;
    } else {
      var c := connections[0];
      ReadConcat(st, SavedOne(c), Saved(connections[1..]));
      ReadSavedOne(found, c);
      ReadSaved(found + [c], connections[1..]);
      assert found + [c] + connections[1..] == found + connections;
    }
  }

  // Whatever the text is, the names that are recalled hold no quote, and only characters of the text.
  ghost predicate From(name: string, text: string) { forall c :: c in name ==> c != QUOTE && c in text }

  ghost predicate NamesFrom(st: Scan, text: string) {
    && From(st.g, text) && From(st.n, text)
    && (forall i :: 0 <= i < |st.found| ==> From(st.found[i].0, text) && From(st.found[i].1, text))
  }

  lemma ReadNames(st: Scan, cote: char, whole: string)
    requires NamesFrom(st, whole) && cote in whole
    ensures NamesFrom(Read(st, cote), whole)
  {
  }

  lemma {:induction false} RecalledNames(st: Scan, text: string, whole: string)
    requires NamesFrom(st, whole) && forall c :: c in text ==> c in whole
    ensures NamesFrom(ReadAll(st, text), whole)
    decreases |text|
  {
    if text != "" {
      ReadNames(st, text[0], whole);
      RecalledNames(Read(st, text[0]), text[1..], whole);
    }
  }

  lemma {:induction false} SavedHasNoNul(connections: seq<Connection>)
    ensures NUL !in Saved(connections)
  {
    hide SavedOne;
    if connections != [] {
      SavedOneHasNoNul(connections[0]);
      SavedHasNoNul(connections[1..]);
    }
  }

  lemma SavedOneHasNoNul(c: Connection)
    ensures NUL !in SavedOne(c)
  {
    hide Quoted;
    QuotedHasNoNul(c.0);
    QuotedHasNoNul(c.1);
  }

  lemma QuotedHasNoNul(name: string)
    ensures NUL !in Quoted(name)
  {
    CStrHasNoNul(name);
  }

  // A list of connections is recalled as it was saved exactly when no name has a quote or a NUL.
  lemma RoundTrip(connections: seq<Connection>)
    ensures Recalled(Saved(connections)) == connections <==> AllClean(connections)
  {
    hide Saved, ReadAll;
    if AllClean(connections) {
      ReadSaved([], connections);
      assert [] + connections == connections;
    }
    if Recalled(Saved(connections)) == connections {
      var text := Saved(connections);
      RecalledNames(START, text, text);
      SavedHasNoNul(connections);
      forall i | 0 <= i < |connections| ensures Clean(connections[i].0) && Clean(connections[i].1) {
        assert From(connections[i].0, text) && From(connections[i].1, text);
      }
    }
  }

  // ---- renaming ----

  ghost predicate OccursAt(s: string, t: string, i: nat) { i + |t| <= |s| && s[i..i + |t|] == t }

  // `find` of a string: the first place where t occurs
  function Find(s: string, t: string): Option<nat> {
    if |t| <= |s| && s[..|t|] == t then Some(0)
    else if s == "" then None
    else match Find(s[1..], t) case None => None case Some(i) => Some(i + 1)
  }

  lemma {:induction false} FindFirst(s: string, t: string)
    ensures Find(s, t).Some? ==> OccursAt(s, t, Find(s, t).value)
    ensures forall j: nat :: OccursAt(s, t, j) ==> Find(s, t).Some? && Find(s, t).value <= j
  {
    if !(|t| <= |s| && s[..|t|] == t) && s != "" {
      FindFirst(s[1..], t);
      forall j: nat | OccursAt(s, t, j) ensures Find(s, t).Some? && Find(s, t).value <= j {
        assert j > 0;
        assert s[1..][j - 1..j - 1 + |t|] == s[j..j + |t|];
        assert OccursAt(s[1..], t, j - 1);
      }
      if Find(s, t).Some? {
        var i := Find(s[1..], t).value;
        assert s[1..][i..i + |t|] == s[i + 1..i + 1 + |t|];
      }
    }
  }

  // renameClient: the first key of the table whose first occurrence is followed by ':' is replaced.
  predicate Applies(port: string, key: string) {
    var pos := Find(port, key);
    pos.Some? && pos.value + |key| < |port| && port[pos.value + |key|] == ':'
  }

  function Replaced(port: string, key: string, newKey: string): string
    requires Applies(port, key)
  {
    port[..Find(port, key).value] + newKey + port[Find(port, key).value + |key|..]
  }

  function Renamed(port: string, table: seq<(string, string)>): string {
    if table == [] then port
    else if Applies(port, table[0].0) then Replaced(port, table[0].0, table[0].1)
    else Renamed(port, table[1..])
  }

  function RenamedAll(connections: seq<Connection>, table: seq<(string, string)>): (r: seq<Connection>)
    ensures |r| == |connections|
  {
    seq(|connections|, i requires 0 <= i < |connections| =>
      (Renamed(connections[i].0, table), Renamed(connections[i].1, table)))
  }

  method RenameClient(port: string, table: seq<(string, string)>) returns (renamed: string)
    ensures renamed == Renamed(port, table)
  {
    renamed := port;
    for i := 0 to |table|
      invariant renamed == port && Renamed(port, table) == Renamed(port, table[i..])
    {
      assert table[i..][0] == table[i] && table[i..][1..] == table[i + 1..];
      var pos := Find(port, table[i].0);
      if pos.Some? {
        if pos.value + |table[i].0| < |port| && port[pos.value + |table[i].0|] == ':' {
          renamed := port[..pos.value] + table[i].1 + port[pos.value + |table[i].0|..];
          break;
        }
      }
    }
  }

  // ---- the ports of windows ----

  const BASE := "FLW-"

  // The client name of a window, and a port of it
  function Client(index: int): string { BASE + IntText(index) }

  function Port(index: int, rest: string): string { Client(index) + (":" + rest) }

  ghost predicate HasBase(s: string) { exists i: nat :: OccursAt(s, BASE, i) }

  // The table of copyWindowFolder, with its keys in some order
  ghost predicate Order(order: seq<int>, changes: map<int, int>) { forall k :: k in order <==> k in changes }

  function Table(order: seq<int>, changes: map<int, int>): seq<(string, string)>
    requires forall k :: k in order ==> k in changes
  {
    seq(|order|, i requires 0 <= i < |order| => (Client(order[i]), Client(changes[order[i]])))
  }

  function NewIndex(changes: map<int, int>, index: int): int {
    if index in changes then changes[index] else index
  }

  // `<` of strings, on the client names of two indexes
  predicate TextBefore(s: string, t: string) {
    t != "" && (s == "" || s[0] < t[0] || (s[0] == t[0] && TextBefore(s[1..], t[1..])))
  }

  // An insertion into std::map<std::string, std::string>
  function InsertByText(order: seq<int>, k: int): seq<int> {
    if order == [] || TextBefore(Client(k), Client(order[0])) then [k] + order
    else [order[0]] + InsertByText(order[1..], k)
  }

  function TextOrder(keys: seq<int>): seq<int> {
    if keys == [] then [] else InsertByText(TextOrder(keys[..|keys| - 1]), keys[|keys| - 1])
  }

  lemma NoTextOrder()
    ensures TextOrder([]) == []
  {
  }

  lemma NextTextOrder(keys: seq<int>, i: nat)
    requires i < |keys|
    ensures TextOrder(keys[..i + 1]) == InsertByText(TextOrder(keys[..i]), keys[i])
  {
    hide InsertByText;
    assert keys[..i + 1][..i] == keys[..i];
  }

  lemma {:induction false} InsertKeeps(order: seq<int>, k: int)
    ensures forall x :: x in InsertByText(order, k) <==> x == k || x in order
  {
    hide Client, TextBefore;
    if order != [] && !TextBefore(Client(k), Client(order[0])) {
      InsertKeeps(order[1..], k);
      assert order == [order[0]] + order[1..];
    }
  }

  lemma {:induction false} TextOrderKeeps(keys: seq<int>)
    ensures forall x :: x in TextOrder(keys) <==> x in keys
  {
    hide InsertByText;
    if keys != [] {
      var n := |keys| - 1;
      TextOrderKeeps(keys[..n]);
      InsertKeeps(TextOrder(keys[..n]), keys[n]);
      assert keys == keys[..n] + [keys[n]];
    }
  }

  // The order in which copyWindowFolder's table is visited
  function MapOrder(s: set<int>): (order: seq<int>)
    ensures forall k :: k in order <==> k in s
  {
    TextOrderKeeps(InOrder(s));
    TextOrder(InOrder(s))
  }

  // A connection file after the changes of indexes
  function Changed(text: string, changes: map<int, int>): string {
    Saved(RenamedAll(Recalled(text), Table(MapOrder(changes.Keys), changes)))
  }

  lemma MapOrderOf(s: set<int>)
    ensures MapOrder(s) == TextOrder(InOrder(s))
  {
    hide InOrder, TextOrder;
  }

  lemma {:induction false} TextBeforeIsTotal(s: string, t: string)
    ensures TextBefore(s, t) || TextBefore(t, s) || s == t
    ensures !TextBefore(s, s)
    decreases |s|
  {
    if s != "" {
      if t != "" {
        TextBeforeIsTotal(s[1..], t[1..]);
        assert s == [s[0]] + s[1..] && t == [t[0]] + t[1..];
      } else {
        TextBeforeIsTotal(s[1..], "");
      }
    }
  }

  lemma {:induction false} TextBeforeIsTransitive(s: string, t: string, u: string)
    requires TextBefore(s, t) && TextBefore(t, u)
    ensures TextBefore(s, u)
    decreases |s|
  {
    if s != "" && s[0] == t[0] == u[0] {
      TextBeforeIsTransitive(s[1..], t[1..], u[1..]);
    }
  }

  ghost predicate ByText(order: seq<int>) {
    forall i, j :: 0 <= i < j < |order| ==> TextBefore(Client(order[i]), Client(order[j]))
  }

  lemma {:induction false} InsertSorts(order: seq<int>, k: int)
    requires ByText(order) && k !in order
    ensures ByText(InsertByText(order, k))
  {
    hide Client, TextBefore;
    if order == [] {
    } else if TextBefore(Client(k), Client(order[0])) {
      forall j | 0 <= j < |order| ensures TextBefore(Client(k), Client(order[j])) {
        if j > 0 {
          TextBeforeIsTransitive(Client(k), Client(order[0]), Client(order[j]));
        }
      }
    } else {
      assert order[0] in order;
      TextBeforeIsTotal(Client(k), Client(order[0]));
      if Client(k) == Client(order[0]) {
        ClientInjective(k, order[0]);
      }
      var rest := InsertByText(order[1..], k);
      InsertSorts(order[1..], k);
      InsertKeeps(order[1..], k);
      forall j | 0 <= j < |rest| ensures TextBefore(Client(order[0]), Client(rest[j])) {
        assert rest[j] in rest;
      }
    }
  }

  lemma MapOrderSorts(s: set<int>)
    ensures ByText(MapOrder(s))
  {
    hide InOrder, TextOrder, ByText;
    InOrderIncreases(s);
    TextOrderSorts(InOrder(s));
  }

  // The table is visited in the order of its texts: FLW-10 comes before FLW-2.
  lemma {:induction false} TextOrderSorts(keys: seq<int>)
    requires Increasing(keys)
    ensures ByText(TextOrder(keys))
  {
    hide InsertByText, ByText;
    if keys == [] {
      NoneByText();
    } else {
      var n := |keys| - 1;
      TextOrderSorts(keys[..n]);
      TextOrderKeeps(keys[..n]);
      InsertSorts(TextOrder(keys[..n]), keys[n]);
    }
  }

  lemma NoneByText()
    ensures ByText([])
  {
  }

  lemma PortColon(index: int, rest: string)
    ensures |Port(index, rest)| == |Client(index)| + 1 + |rest|
    ensures Port(index, rest)[|Client(index)|] == ':'
    ensures forall i :: 0 <= i < |Client(index)| ==> Port(index, rest)[i] != ':'
    ensures forall i :: 0 < i <= |Client(index)| ==> Port(index, rest)[i] != 'F'
    ensures Port(index, rest)[..|Client(index)|] == Client(index)
    ensures Port(index, rest)[|Client(index)| + 1..] == rest
  {
    hide IntText;
    var p := Port(index, rest);
    assert forall i :: 0 <= i < |IntText(index)| ==> IntText(index)[i] == '-' || IsDigit(IntText(index)[i]);
    assert forall i :: |BASE| <= i < |Client(index)| ==> p[i] == IntText(index)[i - |BASE|];
    assert p[0] == 'F' && p[1] == 'L' && p[2] == 'W' && p[3] == '-';
  }

  lemma PortIs(index: int, rest: string)
    ensures Port(index, rest) == Client(index) + (":" + rest)
  {
  }

  lemma PortOfParts(p: string, key: int)
    requires |Client(key)| < |p| && p[..|Client(key)|] == Client(key) && p[|Client(key)|] == ':'
    ensures p == Port(key, p[|Client(key)| + 1..])
  {
    hide Client;
    var n := |Client(key)|;
    assert p == p[..n] + ([p[n]] + p[n + 1..]);
  }

  lemma ClientInjective(m: int, n: int)
    requires Client(m) == Client(n)
    ensures m == n
  {
    assert IntText(m) == Client(m)[|BASE|..] && IntText(n) == Client(n)[|BASE|..];
    IntTextInjective(m, n);
  }

  // The first colon ends the client name, so that a port determines its window: FLW-1 is never read
  // in a port of FLW-12.
  lemma PortInjective(m: int, s: string, n: int, t: string)
    ensures Port(m, s) == Port(n, t) <==> m == n && s == t
  {
    hide Port, Client;
    if Port(m, s) == Port(n, t) {
      PortColon(m, s);
      PortColon(n, t);
      assert |Client(m)| == |Client(n)|;
      ClientInjective(m, n);
    }
  }

  lemma FoundAtStart(key: int, index: int, rest: string)
    requires !HasBase(rest) && Find(Port(index, rest), Client(key)).Some?
    ensures Find(Port(index, rest), Client(key)) == Some(0)
  {
    hide Port, Client, Find;
    var p := Port(index, rest);
    FindFirst(p, Client(key));
    var pos := Find(p, Client(key)).value;
    BaseInClient(p, key, pos);
    if pos > 0 {
      BaseOnlyFirst(index, rest, pos);
    }
  }

  // Where the name of a client can be found in a port whose rest does not hold the base name.
  lemma KeyInPort(key: int, index: int, rest: string)
    requires !HasBase(rest)
    ensures Applies(Port(index, rest), Client(key)) <==> key == index
    ensures key == index ==> Find(Port(index, rest), Client(key)) == Some(0)
  {
    hide Port, Client, IntText, HasBase;
    var p := Port(index, rest);
    FindFirst(p, Client(key));
    PortColon(index, rest);
    if Find(p, Client(key)).Some? {
      FoundAtStart(key, index, rest);
      if Applies(p, Client(key)) {
        assert p[..|Client(key)|] == Client(key);
        PortOfParts(p, key);
        PortInjective(key, p[|Client(key)| + 1..], index, rest);
      }
    }
    if key == index {
      assert OccursAt(p, Client(key), 0);
    }
  }

  lemma BaseInClient(s: string, key: int, pos: nat)
    requires OccursAt(s, Client(key), pos)
    ensures OccursAt(s, BASE, pos)
  {
    hide IntText;
    assert s[pos..pos + |Client(key)|][..|BASE|] == BASE;
  }

  lemma BaseOnlyFirst(index: int, rest: string, pos: nat)
    requires pos > 0 && OccursAt(Port(index, rest), BASE, pos)
    ensures pos > |Client(index)| && OccursAt(rest, BASE, pos - |Client(index)| - 1)
  {
    hide IntText, Port;
    var p := Port(index, rest);
    PortColon(index, rest);
    assert p[pos] == p[pos..pos + |BASE|][0] == 'F';
    var j := pos - |Client(index)| - 1;
    assert rest[j..j + |BASE|] == p[pos..pos + |BASE|] == BASE;
  }

  // ---- what the renaming does to a port, exactly ----

  // The first place, in the order of the table, of a key that applies
  function FirstKey(port: string, order: seq<int>): (i: nat)
    ensures i <= |order|
  {
    if order == [] || Applies(port, Client(order[0])) then 0 else 1 + FirstKey(port, order[1..])
  }

  lemma {:induction false} FirstKeyApplies(port: string, order: seq<int>)
    ensures var i := FirstKey(port, order);
      && (i < |order| ==> Applies(port, Client(order[i])))
      && forall j :: 0 <= j < i ==> !Applies(port, Client(order[j]))
  {
    hide Applies, Client;
    if order != [] && !Applies(port, Client(order[0])) {
      FirstKeyApplies(port, order[1..]);
    }
  }

  lemma {:induction false} RenamedByFirstKey(port: string, order: seq<int>, changes: map<int, int>)
    requires forall k :: k in order ==> k in changes
    ensures var i := FirstKey(port, order);
      && (i < |order| ==> Applies(port, Client(order[i])))
      && Renamed(port, Table(order, changes)) ==
           if i < |order| then Replaced(port, Client(order[i]), Client(changes[order[i]])) else port
    decreases |order|
  {
    hide Applies, Client, Replaced;
    if order != [] {
      assert Table(order, changes)[1..] == Table(order[1..], changes);
      RenamedByFirstKey(port, order[1..], changes);
    }
  }

  lemma ReplacedBySame(port: string, k: int, c: int)
    requires Applies(port, Client(k))
    ensures Replaced(port, Client(k), Client(c)) == port <==> c == k
  {
    hide Client, Find;
    FindFirst(port, Client(k));
    var pos := Find(port, Client(k)).value;
    var r := Replaced(port, Client(k), Client(c));
    assert port[pos..pos + |Client(k)|] == Client(k);
    if r == port {
      assert |Client(c)| == |Client(k)|;
      assert r[pos..pos + |Client(c)|] == Client(c);
      ClientInjective(c, k);
    }
  }

  // The name of another window can only be found in the rest.
  lemma KeyInRest(key: int, index: int, rest: string)
    requires key != index && Applies(Port(index, rest), Client(key))
    ensures Find(Port(index, rest), Client(key)).value > |Client(index)|
  {
    hide Port, Client, Find;
    var p := Port(index, rest);
    FindFirst(p, Client(key));
    var pos := Find(p, Client(key)).value;
    if pos == 0 {
      assert p[..|Client(key)|] == Client(key);
      PortOfParts(p, key);
      PortInjective(key, p[|Client(key)| + 1..], index, rest);
    } else {
      BaseInClient(p, key, pos);
      BaseOnlyFirst(index, rest, pos);
    }
  }

  lemma OwnKeyApplies(index: int, rest: string)
    ensures Applies(Port(index, rest), Client(index)) && Find(Port(index, rest), Client(index)) == Some(0)
  {
    hide Port, Client, Find;
    PortColon(index, rest);
    FindFirst(Port(index, rest), Client(index));
    assert OccursAt(Port(index, rest), Client(index), 0);
  }

  // Then the port stays one of its window.
  lemma ReplacedInRest(key: int, index: int, rest: string, newKey: string) returns (newRest: string)
    requires key != index && Applies(Port(index, rest), Client(key))
    ensures Replaced(Port(index, rest), Client(key), newKey) == Port(index, newRest)
  {
    hide Port, Client, Find;
    KeyInRest(key, index, rest);
    PortColon(index, rest);
    var p := Port(index, rest);
    var r := Replaced(p, Client(key), newKey);
    var n := |Client(index)|;
    assert r[..n] == p[..n] && r[n] == p[n];
    PortOfParts(r, index);
    newRest := r[n + 1..];
  }

  lemma ReplacedPort(index: int, rest: string, newKey: string)
    requires Find(Port(index, rest), Client(index)) == Some(0) && Applies(Port(index, rest), Client(index))
    ensures Replaced(Port(index, rest), Client(index), newKey) == newKey + (":" + rest)
  {
    hide Client, Find;
    var p := Port(index, rest);
    assert p[..0] + newKey == newKey;
    assert p[|Client(index)|..] == ":" + rest;
  }

  // The first key of the table that applies is that of the port's own window, or none does; or neither
  // that key nor the index of the port was to change.
  predicate Right(order: seq<int>, changes: map<int, int>, index: int, rest: string)
    requires forall k :: k in order ==> k in changes
  {
    var i := FirstKey(Port(index, rest), order);
    i < |order| && order[i] != index ==>
      changes[order[i]] == order[i] && (if index in order then changes[index] else index) == index
  }

  // The same of a text that is no port of a window
  predicate Kept(order: seq<int>, changes: map<int, int>, port: string)
    requires forall k :: k in order ==> k in changes
  {
    var i := FirstKey(port, order);
    i == |order| || (order[i] in changes && changes[order[i]] == order[i])
  }

  // For every rest, also one that holds the base name: the port is renamed for its own window, and for
  // nothing else, unless a key that stands before it in the table applies inside the rest. It is then
  // right only if neither that key nor the index of the port was to change.
  lemma RenamesPortExactly(order: seq<int>, changes: map<int, int>, index: int, rest: string)
    requires forall k :: k in order ==> k in changes
    ensures Right(order, changes, index, rest) <==>
      Renamed(Port(index, rest), Table(order, changes)) == Port(if index in order then changes[index] else index, rest)
  {
    hide Port, Client, Applies, Replaced, Renamed, Table, FirstKey;
    var p := Port(index, rest);
    var i := FirstKey(p, order);
    FirstKeyApplies(p, order);
    RenamedByFirstKey(p, order, changes);
    OwnKeyApplies(index, rest);
    if i < |order| && order[i] == index {
      ReplacedPort(index, rest, Client(changes[index]));
      PortIs(changes[index], rest);
    } else if i < |order| {
      var k := order[i];
      ReplacedBySame(p, k, changes[k]);
      var newRest := ReplacedInRest(k, index, rest, Client(changes[k]));
      PortInjective(index, newRest, if index in order then changes[index] else index, rest);
      PortInjective(index, newRest, index, rest);
    }
  }

  // Any text is left as it is exactly when no key applies, or when the first that does is not changed.
  lemma KeepsPortExactly(order: seq<int>, changes: map<int, int>, port: string)
    requires forall k :: k in order ==> k in changes
    ensures Renamed(port, Table(order, changes)) == port <==> Kept(order, changes, port)
  {
    hide Client, Applies, Replaced, Renamed, Table, FirstKey;
    RenamedByFirstKey(port, order, changes);
    var i := FirstKey(port, order);
    if i < |order| {
      ReplacedBySame(port, order[i], changes[order[i]]);
    }
  }

  // The renaming is right of every port whose rest does not hold the base name, and of every other
  // text without it.
  lemma RightWithoutBase(order: seq<int>, changes: map<int, int>, index: int, rest: string)
    requires forall k :: k in order ==> k in changes
    requires !HasBase(rest)
    ensures Right(order, changes, index, rest) && Kept(order, changes, rest)
  {
    hide Port, Client, Applies, HasBase, FirstKey;
    var p := Port(index, rest);
    FirstKeyApplies(p, order);
    if FirstKey(p, order) < |order| {
      KeyInPort(order[FirstKey(p, order)], index, rest);
    }
    FirstKeyApplies(rest, order);
    if FirstKey(rest, order) < |order| {
      NoKeyWithoutBase(order[FirstKey(rest, order)], rest);
    }
  }

  lemma NoKeyWithoutBase(key: int, port: string)
    requires !HasBase(port)
    ensures !Applies(port, Client(key))
  {
    hide Client, Find;
    FindFirst(port, Client(key));
    if Applies(port, Client(key)) {
      BaseInClient(port, key, Find(port, Client(key)).value);
    }
  }

  // Without the base name in the rest the renaming is simultaneous: whatever the order of the table, the
  // index of a window's port is changed exactly once, to the new index of that window.
  lemma RenamesPort(order: seq<int>, changes: map<int, int>, index: int, rest: string)
    requires forall k :: k in order ==> k in changes
    requires !HasBase(rest)
    ensures Renamed(Port(index, rest), Table(order, changes))
         == Port(if index in order then changes[index] else index, rest)
  {
    hide Port, HasBase, Renamed, Table, Right, Kept;
    RightWithoutBase(order, changes, index, rest);
    RenamesPortExactly(order, changes, index, rest);
  }

  // A port without the base name, as one of the sound card, is left as it is.
  lemma KeepsOtherPorts(order: seq<int>, changes: map<int, int>, port: string)
    requires forall k :: k in order ==> k in changes
    requires !HasBase(port)
    ensures Renamed(port, Table(order, changes)) == port
  {
    hide HasBase, Renamed, Table, Right, Kept;
    RightWithoutBase(order, changes, 0, port);
    KeepsPortExactly(order, changes, port);
  }

  // Two ports of which the renaming is right are the same after an import exactly when their windows get
  // the same index, so that an injective change of indexes keeps the graph of the connections.
  lemma SamePorts(order: seq<int>, changes: map<int, int>, m: int, s: string, n: int, t: string)
    requires Order(order, changes) && Right(order, changes, m, s) && Right(order, changes, n, t)
    ensures Renamed(Port(m, s), Table(order, changes)) == Renamed(Port(n, t), Table(order, changes)) <==>
      NewIndex(changes, m) == NewIndex(changes, n) && s == t
  {
    hide Port, Right, Renamed, Table;
    RenamesPortExactly(order, changes, m, s);
    RenamesPortExactly(order, changes, n, t);
    PortInjective(NewIndex(changes, m), s, NewIndex(changes, n), t);
  }

  // A family for which it is not right: a port of window m whose rest is a port of window k is renamed
  // for window k.
  lemma BaseInRest(m: int, k: int, n: int, s: string)
    requires m != k && |Client(m)| == |Client(k)|
    ensures Renamed(Port(m, Port(k, s)), [(Client(k), Client(n))]) == Port(m, Port(n, s))
  {
    hide Client, Find, Port;
    var p := Port(m, Port(k, s));
    var at := |Client(m)| + 1;
    FoundInRest(m, k, s);
    PortColon(m, Port(k, s));
    PortColon(k, s);
    assert p[at..] == Port(k, s);
    assert p[at + |Client(k)|] == Port(k, s)[|Client(k)|];
    assert Applies(p, Client(k));
    NestedPort(m, k, s);
    NestedPort(m, n, s);
    ReplaceMiddle(Client(m) + ":", Client(k), ":" + s, Client(n));
  }

  // Two ports that become one: when window k gets the index m, and m another one, a port of k whose rest
  // is a port of m, and a port of m whose rest is a port of k, are both renamed to the same text.
  lemma MergedPorts(m: int, k: int, n: int, s: string)
    requires m != k && |Client(m)| == |Client(k)|
    ensures var table := Table([k, m], map[k := m, m := n]);
      && Renamed(Port(m, Port(k, s)), table) == Port(m, Port(m, s)) == Renamed(Port(k, Port(m, s)), table)
      && Port(m, Port(k, s)) != Port(k, Port(m, s))
      && !Right([k, m], map[k := m, m := n], m, Port(k, s))
  {
    var order, changes := [k, m], map[k := m, m := n];
    assert Table(order, changes)[0] == (Client(k), Client(m));
    hide Client, Port, Replaced, Find, Table;
    OwnKeyApplies(k, Port(m, s));
    RenamesPortExactly(order, changes, k, Port(m, s));
    KeyInNestedPort(m, k, s);
    BaseInRest(m, k, m, s);
    RenamesPortExactly(order, changes, m, Port(k, s));
    PortInjective(m, Port(k, s), k, Port(m, s));
  }

  lemma KeyInNestedPort(m: int, k: int, s: string)
    requires m != k && |Client(m)| == |Client(k)|
    ensures Applies(Port(m, Port(k, s)), Client(k))
  {
    hide Client, Port, Find;
    FoundInRest(m, k, s);
    PortColon(m, Port(k, s));
    PortColon(k, s);
    assert Port(m, Port(k, s))[|Client(m)| + 1..] == Port(k, s);
  }

  lemma NestedPort(m: int, k: int, s: string)
    ensures Port(m, Port(k, s)) == Client(m) + ":" + (Client(k) + (":" + s))
  {
    hide Client;
  }

  lemma ReplaceMiddle(before: string, key: string, after: string, newKey: string)
    ensures var s := before + (key + after);
            s[..|before|] + newKey + s[|before| + |key|..] == before + (newKey + after)
  {
    var s := before + (key + after);
    assert s[|before| + |key|..] == after;
  }

  lemma FoundInRest(m: int, k: int, s: string)
    requires m != k && |Client(m)| == |Client(k)|
    ensures Find(Port(m, Port(k, s)), Client(k)) == Some(|Client(m)| + 1)
  {
    hide Client, Port, Find;
    var p := Port(m, Port(k, s));
    PortColon(m, Port(k, s));
    PortColon(k, s);
    var at := |Client(m)| + 1;
    assert p[at..] == Port(k, s);
    assert p[at..at + |Client(k)|] == Port(k, s)[..|Client(k)|] == Client(k);
    FindFirst(p, Client(k));
    assert OccursAt(p, Client(k), at);
    var pos := Find(p, Client(k)).value;
    BaseInClient(p, k, pos);
    if pos == 0 {
      assert p[..|Client(k)|] == Client(m);
      ClientInjective(k, m);
    } else {
      BaseOnlyFirst(m, Port(k, s), pos);
    }
  }

  // ---- an import as a whole ----

  // An end of a connection: a port of a window, or a port of something else
  datatype End = OfWindow(index: int, rest: string) | Other(name: string)

  function Name(e: End): string {
    match e case OfWindow(index, rest) => Port(index, rest) case Other(name) => name
  }

  // The renaming treats this end right.
  predicate RightEnd(e: End, changes: map<int, int>) {
    match e
    case OfWindow(index, rest) => Right(MapOrder(changes.Keys), changes, index, rest)
    case Other(name) => Kept(MapOrder(changes.Keys), changes, name)
  }

  function Moved(e: End, changes: map<int, int>): End {
    match e case OfWindow(index, rest) => OfWindow(NewIndex(changes, index), rest) case Other(name) => e
  }

  function Names(ends: seq<(End, End)>): (r: seq<Connection>)
    ensures |r| == |ends|
  {
    seq(|ends|, i requires 0 <= i < |ends| => (Name(ends[i].0), Name(ends[i].1)))
  }

  function AllMoved(ends: seq<(End, End)>, changes: map<int, int>): (r: seq<(End, End)>)
    ensures |r| == |ends|
  {
    seq(|ends|, i requires 0 <= i < |ends| => (Moved(ends[i].0, changes), Moved(ends[i].1, changes)))
  }

  ghost predicate RightEnds(ends: seq<(End, End)>, changes: map<int, int>) {
    forall i :: 0 <= i < |ends| ==> RightEnd(ends[i].0, changes) && RightEnd(ends[i].1, changes)
  }

  lemma RenamesEnd(changes: map<int, int>, e: End)
    ensures RightEnd(e, changes) <==>
      Renamed(Name(e), Table(MapOrder(changes.Keys), changes)) == Name(Moved(e, changes))
  {
    hide Port, Renamed, Table, Right, Kept, MapOrder;
    match e {
      case OfWindow(index, rest) =>
        RenamesPortExactly(MapOrder(changes.Keys), changes, index, rest);
      case Other(name) =>
        KeepsPortExactly(MapOrder(changes.Keys), changes, name);
    }
  }

  lemma {:induction false} RenamedIsClean(order: seq<int>, changes: map<int, int>, port: string)
    requires (forall k :: k in order ==> k in changes) && Clean(port)
    ensures Clean(Renamed(port, Table(order, changes)))
  {
    hide Clean, Applies, Client, Replaced;
    RenamedByFirstKey(port, order, changes);
    var i := FirstKey(port, order);
    if i < |order| {
      ReplacedIsClean(port, order[i], changes[order[i]]);
    }
  }

  lemma ReplacedIsClean(port: string, k: int, c: int)
    requires Clean(port) && Applies(port, Client(k))
    ensures Clean(Replaced(port, Client(k), Client(c)))
  {
    hide IntText, Find;
    assert forall i :: 0 <= i < |IntText(c)| ==> IntText(c)[i] == '-' || IsDigit(IntText(c)[i]);
  }

  lemma RenamesEnds(changes: map<int, int>, ends: seq<(End, End)>)
    ensures RightEnds(ends, changes) <==>
      RenamedAll(Names(ends), Table(MapOrder(changes.Keys), changes)) == Names(AllMoved(ends, changes))
  {
    hide RightEnd, Name, Renamed, Table, Moved, MapOrder;
    var table := Table(MapOrder(changes.Keys), changes);
    var a, b := RenamedAll(Names(ends), table), Names(AllMoved(ends, changes));
    forall i | 0 <= i < |ends|
      ensures a[i] == b[i] <==> RightEnd(ends[i].0, changes) && RightEnd(ends[i].1, changes)
    {
      RenamesEnd(changes, ends[i].0);
      RenamesEnd(changes, ends[i].1);
    }
    assert a == b <==> forall i :: 0 <= i < |ends| ==> a[i] == b[i];
  }

  lemma RenamedAllClean(changes: map<int, int>, connections: seq<Connection>)
    requires AllClean(connections)
    ensures var r := RenamedAll(connections, Table(MapOrder(changes.Keys), changes));
      Recalled(Saved(r)) == r
  {
    hide Clean, Recalled, Saved, Renamed, Table, MapOrder;
    forall i | 0 <= i < |connections|
      ensures Clean(Renamed(connections[i].0, Table(MapOrder(changes.Keys), changes)))
      ensures Clean(Renamed(connections[i].1, Table(MapOrder(changes.Keys), changes)))
    {
      RenamedIsClean(MapOrder(changes.Keys), changes, connections[i].0);
      RenamedIsClean(MapOrder(changes.Keys), changes, connections[i].1);
    }
    RoundTrip(RenamedAll(connections, Table(MapOrder(changes.Keys), changes)));
  }

  // The file of an imported window: what is recalled from it is what was saved in the snapshot, with
  // the windows moved to their new indexes, exactly when the renaming treats every end right.
  lemma ImportMovesWindows(changes: map<int, int>, ends: seq<(End, End)>)
    requires AllClean(Names(ends))
    ensures RightEnds(ends, changes) <==>
      Recalled(Changed(Saved(Names(ends)), changes)) == Names(AllMoved(ends, changes))
  {
    hide Recalled, Saved, RenamedAll, Table, Clean, MapOrder, RightEnds;
    RoundTrip(Names(ends));
    RenamesEnds(changes, ends);
    RenamedAllClean(changes, Names(ends));
  }
}
