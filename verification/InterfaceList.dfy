// The list of available interfaces of src/Network/FLServerHttp.cpp: the server prints the record that
// the parser of src/MenusAndDialogs/SimpleParser.cpp reads.
module InterfaceList {
  import opened CText
  import opened Decimal
  import opened KeyOrder
  import opened TargetsParser

  // One printed interface: its name, and a list that holds its port
  function JsonEntry(port: int, name: string): string {
    "\n" + ([QUOTE] + (name + ([QUOTE] + (":" + (" " + ("[" + ([QUOTE] + (IntText(port) + ([QUOTE] + "]")))))))))
  }

  function JsonEntries(ports: seq<int>, names: map<int, string>): string
    requires forall i :: 0 <= i < |ports| ==> ports[i] in names
  {
    if ports == [] then "" else
    var more := if |ports| == 1 then "" else "," + JsonEntries(ports[1..], names);
    JsonEntry(ports[0], names[ports[0]]) + more
  }

  function Json(names: map<int, string>): string {
    "{" + (JsonEntries(InOrder(names.Keys), names) + "\n}")
  }

  // The interfaces in the order of their ports, as systems with one architecture
  function Interfaces(ports: seq<int>, names: map<int, string>): (systems: seq<System>)
    requires forall i :: 0 <= i < |ports| ==> ports[i] in names
    ensures |systems| == |ports|
    ensures forall i :: 0 <= i < |ports| ==> systems[i] == (names[ports[i]], [IntText(ports[i])])
  {
    if ports == [] then [] else [(names[ports[0]], [IntText(ports[0])])] + Interfaces(ports[1..], names)
  }

  lemma {:induction false} JsonEntriesAppend(ports: seq<int>, port: int, names: map<int, string>)
    requires port in names && forall i :: 0 <= i < |ports| ==> ports[i] in names
    ensures JsonEntries(ports + [port], names)
      == JsonEntries(ports, names) + (if ports == [] then "" else ",") + JsonEntry(port, names[port])
    decreases |ports|
  {
    hide JsonEntry;
    if ports == [] {
      assert ports + [port] == [port];
      assert JsonEntries([port], names) == JsonEntry(port, names[port]) + "";
    } else {
      assert (ports + [port])[1..] == ports[1..] + [port];
      JsonEntriesAppend(ports[1..], port, names);
      var e := JsonEntry(ports[0], names[ports[0]]);
      var f := JsonEntry(port, names[port]);
      assert JsonEntries(ports + [port], names) == e + ("," + JsonEntries(ports[1..] + [port], names));
      if |ports| == 1 {
        assert ports[1..] == [];
        assert e + ("," + ("" + "" + f)) == e + "" + "," + f;
      } else {
        var m := JsonEntries(ports[1..], names);
        assert e + ("," + (m + "," + f)) == e + ("," + m) + "," + f;
      }
    }
  }

  lemma NoEntries(names: map<int, string>)
    ensures JsonEntries([], names) == ""
  {
  }

  // The part of the server that keeps the list
  class Server {
    var declaredNames: map<int, string>
    var json: string

    ghost predicate Valid()
      reads this
    {
      json == Json(declaredNames)
    }

    constructor ()
      ensures Valid() && declaredNames == map[]
    {
      declaredNames := map[];
      new;
      UpdateAvailableInterfaces();
    }

    method DeclareHttpInterface(port: int, name: string)
      modifies this
      ensures Valid() && declaredNames == old(declaredNames)[port := name]
    {
      declaredNames := declaredNames[port := name];
      UpdateAvailableInterfaces();
    }

    method RemoveHttpInterface(port: int)
      modifies this
      ensures Valid() && declaredNames == old(declaredNames) - {port}
    {
      declaredNames := declaredNames - {port};
      UpdateAvailableInterfaces();
    }

    method UpdateAvailableInterfaces()
      modifies this`json
      ensures Valid()
    {
      hide InOrder, JsonEntries, JsonEntry;
      NoEntries(declaredNames);
      var ports := InOrder(declaredNames.Keys);
      var out := "{";
      for i := 0 to |ports|
        invariant out == "{" + JsonEntries(ports[..i], declaredNames)
      {
        assert ports[..i + 1] == ports[..i] + [ports[i]];
        JsonEntriesAppend(ports[..i], ports[i], declaredNames);
        if i != 0 {
          out := out + ",";
        }
        out := out + JsonEntry(ports[i], declaredNames[ports[i]]);
      }
      assert ports[..|ports|] == ports;
      json := out + "\n}";
    }
  }

  // ---- the printed list as a record ----

  function WrittenEntry(port: int, name: string): Entry {
    Entry(Name("\n", name), "", " ", Last(Name("", IntText(port))), "")
  }

  function Written(ports: seq<int>, names: map<int, string>): Entries
    requires ports != [] && forall i :: 0 <= i < |ports| ==> ports[i] in names
  {
    var e := WrittenEntry(ports[0], names[ports[0]]);
    if |ports| == 1 then LastEntry(e) else MoreEntries(e, "", Written(ports[1..], names))
  }

  lemma WrittenEntryText(port: int, name: string)
    ensures EntryText(WrittenEntry(port, name)) == JsonEntry(port, name)
  {
    hide IntText;
    var e := WrittenEntry(port, name);
    var digits := [QUOTE] + (IntText(port) + [QUOTE]);
    assert NamesText(e.names) == digits;
    var t1 := [QUOTE] + (IntText(port) + ([QUOTE] + "]"));
    assert digits + ("" + "]") == t1;
    var t2 := ":" + (" " + ("[" + t1));
    assert EntryText(e) == NameText(e.name) + t2;
    NameThen(name, t2);
  }

  lemma NameThen(name: string, after: string)
    ensures NameText(Name("\n", name)) + after == "\n" + ([QUOTE] + (name + ([QUOTE] + after)))
  {
  }

  lemma {:induction false} WrittenText(ports: seq<int>, names: map<int, string>)
    requires ports != [] && forall i :: 0 <= i < |ports| ==> ports[i] in names
    ensures EntriesText(Written(ports, names)) == JsonEntries(ports, names)
    ensures SystemsOf(Written(ports, names)) == Interfaces(ports, names)
  {
    if |ports| == 1 {
      WrittenOne(ports, names);
    } else {
      WrittenText(ports[1..], names);
      WrittenMore(ports, names);
    }
  }

  lemma WrittenOne(ports: seq<int>, names: map<int, string>)
    requires |ports| == 1 && ports[0] in names
    ensures EntriesText(Written(ports, names)) == JsonEntries(ports, names)
    ensures SystemsOf(Written(ports, names)) == Interfaces(ports, names)
  {
    hide JsonEntry, EntryText, IntText;
    WrittenEntryText(ports[0], names[ports[0]]);
    var e := JsonEntry(ports[0], names[ports[0]]);
    assert e + "" == e;
    assert ports[1..] == [];
  }

  lemma WrittenMore(ports: seq<int>, names: map<int, string>)
    requires |ports| > 1 && forall i :: 0 <= i < |ports| ==> ports[i] in names
    ensures var rest := ports[1..];
      && EntriesText(Written(ports, names))
         == JsonEntry(ports[0], names[ports[0]]) + ("," + EntriesText(Written(rest, names)))
      && JsonEntries(ports, names) == JsonEntry(ports[0], names[ports[0]]) + ("," + JsonEntries(rest, names))
      && SystemsOf(Written(ports, names))
         == [(names[ports[0]], [IntText(ports[0])])] + SystemsOf(Written(rest, names))
      && Interfaces(ports, names) == [(names[ports[0]], [IntText(ports[0])])] + Interfaces(rest, names)
  {
    hide JsonEntry, EntryText, IntText;
    WrittenEntryText(ports[0], names[ports[0]]);
    var more := "," + EntriesText(Written(ports[1..], names));
    assert "" + more == more;
  }

  ghost predicate Plain(names: map<int, string>) { forall p :: p in names ==> QUOTE !in names[p] && NUL !in names[p] }

  lemma {:induction false} WrittenValid(ports: seq<int>, names: map<int, string>)
    requires ports != [] && forall i :: 0 <= i < |ports| ==> ports[i] in names
    requires Plain(names)
    ensures ValidEntries(Written(ports, names))
  {
    assert CBlank("\n") && CBlank("") && CBlank(" ");
    assert forall i :: 0 <= i < |IntText(ports[0])| ==> IntText(ports[0])[i] != QUOTE;
    assert ValidEntry(WrittenEntry(ports[0], names[ports[0]]));
    if |ports| > 1 {
      WrittenValid(ports[1..], names);
    }
  }

  lemma {:induction false} JsonEntriesPlain(ports: seq<int>, names: map<int, string>)
    requires forall i :: 0 <= i < |ports| ==> ports[i] in names
    requires Plain(names)
    ensures NUL !in JsonEntries(ports, names)
  {
    hide IntText;
    if ports != [] {
      JsonEntriesPlain(ports[1..], names);
      JsonEntryPlain(ports[0], names[ports[0]]);
    }
  }

  lemma JsonEntryPlain(port: int, name: string)
    requires NUL !in name
    ensures NUL !in JsonEntry(port, name)
  {
    hide IntText;
    var digits := IntText(port);
    assert NUL !in digits by {
      forall i | 0 <= i < |digits| ensures digits[i] != NUL {
      }
    }
  }

  // A list of names without quotes and without NUL is read back as it was printed.
  lemma ReadsPrinted(names: map<int, string>)
    requires names != map[] && Plain(names)
    ensures ParseRecord(CStr(Json(names))) == Parsed(true, Interfaces(InOrder(names.Keys), names), "")
  {
    hide InOrder, JsonEntries, Interfaces, ParseRecord, CStr, Json;
    var ports := InOrder(names.Keys);
    JsonIsPlain(names);
    CStrOfClean(Json(names));
    assert ports != [] by {
      NonEmpty(names.Keys);
      var p :| p in names.Keys;
      assert p in ports;
    }
    var r := WrittenRecord(ports, names);
    Complete(r, "");
    assert RecordText(r) + "" == RecordText(r);
    JsonOf(names);
  }

  lemma JsonOf(names: map<int, string>)
    ensures Json(names) == "{" + (JsonEntries(InOrder(names.Keys), names) + "\n}")
  {
    hide InOrder, JsonEntries;
  }

  lemma JsonIsPlain(names: map<int, string>)
    requires Plain(names)
    ensures NUL !in Json(names)
  {
    hide InOrder, JsonEntries, Plain;
    JsonEntriesPlain(InOrder(names.Keys), names);
  }

  lemma WrittenRecord(ports: seq<int>, names: map<int, string>) returns (r: Record)
    requires ports != [] && forall i :: 0 <= i < |ports| ==> ports[i] in names
    requires Plain(names)
    ensures ValidRecord(r) && SystemsOf(r.entries) == Interfaces(ports, names)
    ensures RecordText(r) == "{" + (JsonEntries(ports, names) + "\n}")
  {
    hide Written, JsonEntries, Interfaces, EntriesText, ValidEntries, SystemsOf;
    r := Record(true, "", Written(ports, names), "\n");
    WrittenValid(ports, names);
    WrittenText(ports, names);
    assert "" + "{" == "{" && "\n" + "}" == "\n}";
  }

  // The names that are read hold no quote, and only characters of the text.
  lemma {:induction false} NamesInText(l: Entries, i: nat)
    requires ValidEntries(l) && i < |SystemsOf(l)|
    ensures QUOTE !in SystemsOf(l)[i].0
    ensures forall c :: c in SystemsOf(l)[i].0 ==> c in EntriesText(l)
  {
    hide NamesText, NamesOf;
    match l {
      case LastEntry(e) =>
        assert forall c :: c in e.name.text ==> c in NameText(e.name);
      case MoreEntries(e, _, others) =>
        if i > 0 {
          NamesInText(others, i - 1);
        } else {
          assert forall c :: c in e.name.text ==> c in NameText(e.name);
        }
    }
  }

  lemma {:induction false} SystemsNotEmpty(l: Entries)
    ensures SystemsOf(l) != []
  {
  }

  // The client, which reads up to a NUL, gets the list back exactly when it is not empty and no name
  // has a quote or a NUL.
  lemma RoundTrip(names: map<int, string>)
    ensures ParseRecord(CStr(Json(names))) == Parsed(true, Interfaces(InOrder(names.Keys), names), "")
      <==> names != map[] && Plain(names)
  {
    hide InOrder, Json, ParseRecord, CStr;
    var ports := InOrder(names.Keys);
    if names != map[] && Plain(names) {
      ReadsPrinted(names);
    }
    if ParseRecord(CStr(Json(names))) == Parsed(true, Interfaces(ports, names), "") {
      ReadIsPlain(CStr(Json(names)), names);
    }
  }

  lemma ReadIsPlain(text: string, names: map<int, string>)
    requires ParseRecord(text) == Parsed(true, Interfaces(InOrder(names.Keys), names), "")
    requires text == CStr(Json(names))
    ensures names != map[] && Plain(names)
  {
    hide InOrder, Json, ParseRecord, ValidEntries, SystemsOf, EntriesText, CStr;
    var ports := InOrder(names.Keys);
    var r := Sound(text);
    CStrHasNoNul(Json(names));
    SystemsNotEmpty(r.entries);
    assert ports != [];
    assert ports[0] in names;
    forall p | p in names ensures QUOTE !in names[p] && NUL !in names[p] {
      assert p in ports;
      var i :| 0 <= i < |ports| && ports[i] == p;
      NamesInText(r.entries, i);
      assert SystemsOf(r.entries)[i].0 == names[p];
      assert forall c :: c in EntriesText(r.entries) ==> c in text;
    }
  }

  // The list of no interface is refused.
  lemma EmptyListIsRefused()
    ensures !ParseRecord(CStr(Json(map[]))).ok
  {
    hide ParseRecord, CStr;
    var names: map<int, string> := map[];
    assert InOrder(names.Keys) == [];
    var text := "{" + ("" + "\n}");
    assert Json(names) == text;
    CStrOfClean(text);
    BracesAreRefused(text);
  }

  lemma BracesAreRefused(text: string)
    requires text == "{" + ("" + "\n}")
    ensures !ParseRecord(text).ok
  {
    assert text[1..] == "\n}" && "\n}"[1..] == "}";
    assert ParseChar(text, '{').rest == "\n}";
    assert Skip("\n}") == "}";
  }

  // What the parser gives for a name: the highest port that has it.
  lemma LastPortOfName(names: map<int, string>, p: int)
    requires Plain(names) && p in names
    requires forall q :: q in names && names[q] == names[p] ==> q <= p
    ensures var targets := Targets(ParseRecord(CStr(Json(names))).value);
            names[p] in targets && targets[names[p]] == [IntText(p)]
  {
    hide InOrder, Json, ParseRecord, Targets, IntText;
    ReadsPrinted(names);
    InOrderIncreases(names.Keys);
    LastPort(InOrder(names.Keys), names, p);
  }

  lemma LastPort(ports: seq<int>, names: map<int, string>, p: int)
    requires Increasing(ports) && p in ports && forall i :: 0 <= i < |ports| ==> ports[i] in names
    requires forall q :: q in names && names[q] == names[p] ==> q <= p
    ensures var targets := Targets(Interfaces(ports, names));
            names[p] in targets && targets[names[p]] == [IntText(p)]
  {
    hide Targets, IntText;
    var systems := Interfaces(ports, names);
    var i :| 0 <= i < |ports| && ports[i] == p;
    forall j | i < j < |systems| ensures systems[j].0 != systems[i].0 {
      assert ports[j] in names;
    }
    TargetsOfLast(systems, i);
  }
}
