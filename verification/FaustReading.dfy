// The text of a program determines the program: what a reader of Faust sees in the output of the
// component creator, with its quotes and its nested parentheses.
module FaustReading {
  import opened Options
  import opened FaustCode

  const QUOTE := '\"'

  // ---- reading with quotes and parentheses ----

  datatype Reading = Reading(depth: nat, quoted: bool)

  const OUTSIDE := Reading(0, false)
  const INSIDE := Reading(1, false)

  predicate IsDelimiter(c: char) { c == ',' || c == ':' || c == ')' }

  // A delimiter outside of quotes and parentheses ends the reading.
  function ReadChar(st: Reading, c: char): Option<Reading> {
    if st.quoted then Some(st.(quoted := c != QUOTE))
    else if c == QUOTE then Some(st.(quoted := true))
    else if c == '(' then Some(st.(depth := st.depth + 1))
    else if IsDelimiter(c) && st.depth == 0 then None
    else if c == ')' then Some(st.(depth := st.depth - 1))
    else Some(st)
  }

  function ReadText(st: Reading, s: string): Option<Reading>
    decreases |s|
  {
    if s == "" then Some(st)
    else match ReadChar(st, s[0]) case None => None case Some(next) => ReadText(next, s[1..])
  }

  // A text that is one expression for its surroundings
  predicate Whole(s: string) { ReadText(OUTSIDE, s) == Some(OUTSIDE) }

  // A text that may stand between parentheses
  predicate Enclosable(s: string) { ReadText(INSIDE, s) == Some(INSIDE) }

  lemma {:induction false} ReadConcat(st: Reading, s: string, t: string)
    ensures ReadText(st, s + t) ==
      match ReadText(st, s) case None => None case Some(next) => ReadText(next, t)
    decreases |s|
  {
    hide ReadChar;
    if s == "" {
      assert s + t == t;
    } else {
      assert (s + t)[0] == s[0] && (s + t)[1..] == s[1..] + t;
      match ReadChar(st, s[0]) {
        case None =>
        case Some(next) => ReadConcat(next, s[1..], t);
      }
    }
  }

  lemma {:induction false} ReadDeeper(st: Reading, s: string)
    requires ReadText(st, s).Some?
    ensures ReadText(Reading(st.depth + 1, st.quoted), s)
         == Some(Reading(ReadText(st, s).value.depth + 1, ReadText(st, s).value.quoted))
    decreases |s|
  {
    if s != "" {
      ReadDeeper(ReadChar(st, s[0]).value, s[1..]);
    }
  }

  lemma {:induction false} ReadQuoted(depth: nat, s: string)
    requires QUOTE !in s
    ensures ReadText(Reading(depth, true), s) == Some(Reading(depth, true))
  {
    if s != "" {
      ReadQuoted(depth, s[1..]);
    }
  }

  lemma ReadOne(st: Reading, c: char)
    ensures ReadText(st, [c]) == ReadChar(st, c)
  {
    hide ReadChar;
    assert [c][1..] == "";
  }

  lemma WholeIsEnclosable(s: string)
    requires Whole(s)
    ensures Enclosable(s)
  {
    ReadDeeper(OUTSIDE, s);
  }

  lemma EnclosableConcat(s: string, t: string)
    requires Enclosable(s) && Enclosable(t)
    ensures Enclosable(s + t)
  {
    hide ReadText;
    ReadConcat(INSIDE, s, t);
  }

  lemma OneEnclosable(c: char)
    requires c == ',' || c == ':'
    ensures Enclosable([c])
  {
    hide ReadText;
    ReadOne(INSIDE, c);
  }

  lemma QuotedEnclosable(s: string)
    requires QUOTE !in s
    ensures Enclosable([QUOTE] + (s + [QUOTE]))
  {
    hide ReadText;
    ReadConcat(INSIDE, [QUOTE], s + [QUOTE]);
    ReadOne(INSIDE, QUOTE);
    ReadConcat(Reading(1, true), s, [QUOTE]);
    ReadQuoted(1, s);
    ReadOne(Reading(1, true), QUOTE);
  }

  // A name with its arguments
  function Call(name: string, arguments: string): string { name + ("(" + (arguments + ")")) }

  lemma CallIsWhole(name: string, arguments: string)
    requires Whole(name) && Enclosable(arguments)
    ensures Whole(Call(name, arguments))
  {
    hide ReadText;
    ReadConcat(OUTSIDE, name, "(" + (arguments + ")"));
    ReadConcat(OUTSIDE, "(", arguments + ")");
    ReadOne(OUTSIDE, '(');
    ReadConcat(INSIDE, arguments, ")");
    ReadOne(INSIDE, ')');
  }

  // Two texts that begin with a whole one, up to a delimiter or to the end, begin with the same.
  lemma SameWhole(a: string, x: string, b: string, y: string)
    requires Whole(a) && Whole(b) && a + x == b + y
    requires (x == "" || IsDelimiter(x[0])) && (y == "" || IsDelimiter(y[0]))
    ensures a == b && x == y
  {
    if |a| < |b| {
      ShorterWhole(a, x, b, y);
    } else if |b| < |a| {
      ShorterWhole(b, y, a, x);
    }
    assert a == (a + x)[..|a|] && b == (b + y)[..|b|];
    assert x == (a + x)[|a|..] && y == (b + y)[|b|..];
  }

  lemma ShorterWhole(a: string, x: string, b: string, y: string)
    requires Whole(a) && Whole(b) && a + x == b + y
    requires x == "" || IsDelimiter(x[0])
    ensures |a| >= |b|
  {
    if |a| < |b| {
      var more := (a + x)[|a|..|b|];
      assert b == (a + x)[..|b|] == a + more;
      assert more[0] == (a + x)[|a|] == x[0];
      DelimiterEnds(a, more);
    }
  }

  lemma DelimiterEnds(a: string, more: string)
    requires Whole(a) && more != "" && IsDelimiter(more[0])
    ensures !Whole(a + more)
  {
    ReadConcat(OUTSIDE, a, more);
    assert ReadChar(OUTSIDE, more[0]) == None;
  }

  // ---- the expressions of the component creator ----

  // A text begins like one of the constructs.
  predicate Reserved(t: string) {
    "vgroup(\"" <= t || "hgroup(\"" <= t || "stereoize(" <= t || "recursivize(" <= t
  }

  // Operators stand in groups only; texts are whole, and names have no quote.
  predicate Closed(e: Expr) {
    match e
    case Text(text) => Whole(text) && !Reserved(text)
    case Component(tag, path) => QUOTE !in tag && QUOTE !in path
    case Group(_, tag, body) => QUOTE !in tag && body.Compose? && Closed(body.left) && Closed(body.right)
    case Compose(_, _, _) => false
    case Stereoize(body) => Closed(body)
    case Recursivize(f, b) => Closed(f) && Closed(b)
  }

  function GroupName(vertical: bool): string { if vertical then "vgroup" else "hgroup" }

  // What stands between the parentheses of a group
  function Titled(tag: string, body: string): string { ([QUOTE] + (tag + [QUOTE])) + ("," + body) }

  function ComponentText(path: string): string { Call(" component", [QUOTE] + (path + [QUOTE])) }

  lemma GroupText(name: string, tag: string, body: string)
    ensures name + "(\"" + tag + "\"," + body + ")" == Call(name, Titled(tag, body))
  {
    assert "(\"" == "(" + [QUOTE] && "\"," == [QUOTE] + ",";
    assert name + ("(" + [QUOTE]) + tag + ([QUOTE] + ",") + body + ")"
        == name + ("(" + ((([QUOTE] + (tag + [QUOTE])) + ("," + body)) + ")"));
  }

  lemma PrintGroup(vertical: bool, tag: string, body: Expr)
    ensures Print(Group(vertical, tag, body)) == Call(GroupName(vertical), Titled(tag, Print(body)))
  {
    GroupText(GroupName(vertical), tag, Print(body));
    hide Call, Titled;
    assert (if vertical then "vgroup(\"" else "hgroup(\"") == GroupName(vertical) + "(\"";
  }

  lemma PrintComponent(tag: string, path: string)
    ensures Print(Expr.Component(tag, path)) == Call(GroupName(true), Titled(tag, ComponentText(path)))
  {
    var c := ComponentText(path);
    PathText(path);
    GroupText(GroupName(true), tag, c);
    hide Call, Titled, ComponentText;
    assert "vgroup(\"" == GroupName(true) + "(\"";
    assert "\", component(\"" == "\"," + " component(\"" && "\"))" == "\")" + ")";
    var head := GroupName(true) + "(\"" + tag;
    assert head + ("\"," + " component(\"") + path + ("\")" + ")")
        == head + "\"," + (" component(\"" + path + "\")") + ")";
  }

  lemma PathText(path: string)
    ensures ComponentText(path) == " component(\"" + path + "\")"
  {
    assert " component(\"" == " component" + ("(" + [QUOTE]) && "\")" == [QUOTE] + ")";
  }

  lemma PrintStereoize(body: Expr)
    ensures Print(Stereoize(body)) == Call("stereoize", Print(body))
  {
    CallText("stereoize", Print(body));
    hide Call;
    assert "stereoize(" == "stereoize" + "(";
  }

  lemma PrintRecursivize(f: Expr, b: Expr)
    ensures Print(Recursivize(f, b)) == Call("recursivize", Print(f) + ("," + Print(b)))
  {
    CallText("recursivize", Print(f) + ("," + Print(b)));
    PairText("recursivize(", Print(f), Print(b));
    hide Call;
    assert "recursivize(" == "recursivize" + "(";
  }

  lemma PairText(head: string, f: string, b: string)
    ensures head + f + "," + b + ")" == head + (f + ("," + b)) + ")"
  {
  }

  lemma PrintCompose(op: Operator, l: Expr, r: Expr)
    ensures Print(Compose(op, l, r)) == Print(l) + (op.Symbol() + Print(r))
  {
    SymbolBetween(Print(l), op.Symbol(), Print(r));
  }

  lemma SymbolBetween(l: string, symbol: string, r: string)
    ensures l + symbol + r == l + (symbol + r)
  {
  }

  lemma CallText(name: string, arguments: string)
    ensures Call(name, arguments) == name + "(" + arguments + ")"
  {
  }

  lemma NamesAreWhole()
    ensures Whole("vgroup") && Whole("hgroup") && Whole("stereoize") && Whole("recursivize") && Whole(" component")
  {
    hide Whole;
    PlainIsWhole("vgroup");
    PlainIsWhole("hgroup");
    PlainIsWhole("stereoize");
    PlainIsWhole("recursivize");
    PlainIsWhole(" component");
  }

  lemma {:induction false} PlainIsWhole(s: string)
    requires forall i :: 0 <= i < |s| ==> s[i] == ' ' || 'a' <= s[i] <= 'z'
    ensures Whole(s)
  {
    if s != "" {
      PlainIsWhole(s[1..]);
    }
  }

  lemma TitledEnclosable(tag: string, body: string)
    requires QUOTE !in tag && Enclosable(body)
    ensures Enclosable(Titled(tag, body))
  {
    hide Enclosable;
    QuotedEnclosable(tag);
    OneEnclosable(',');
    EnclosableConcat(",", body);
    EnclosableConcat([QUOTE] + (tag + [QUOTE]), "," + body);
  }

  lemma ComponentTextIsWhole(path: string)
    requires QUOTE !in path
    ensures Whole(ComponentText(path))
  {
    hide Whole, Enclosable, Call;
    NamesAreWhole();
    QuotedEnclosable(path);
    CallIsWhole(" component", [QUOTE] + (path + [QUOTE]));
  }

  lemma PairEnclosable(l: string, c: char, r: string)
    requires Whole(l) && Whole(r) && (c == ',' || c == ':')
    ensures Enclosable(l + ([c] + r))
  {
    hide Whole, Enclosable;
    WholeIsEnclosable(l);
    WholeIsEnclosable(r);
    OneEnclosable(c);
    EnclosableConcat([c], r);
    EnclosableConcat(l, [c] + r);
  }

  lemma SymbolText(op: Operator)
    ensures op.Symbol() == [op.Symbol()[0]] && (op.Symbol()[0] == ',' || op.Symbol()[0] == ':')
    ensures op.Symbol()[0] == ',' <==> op.Parallel?
  {
  }

  // The text of a closed expression is whole.
  lemma {:induction false} ClosedIsWhole(e: Expr)
    requires Closed(e)
    ensures Whole(Print(e))
  {
    NamesAreWhole();
    hide Whole, Enclosable, Print, Call, Titled, ComponentText;
    match e {
      case Text(text) => PrintText(text);
      case Component(tag, path) =>
        PrintComponent(tag, path);
        ComponentTextIsWhole(path);
        WholeIsEnclosable(ComponentText(path));
        TitledEnclosable(tag, ComponentText(path));
        CallIsWhole("vgroup", Titled(tag, ComponentText(path)));
      case Group(vertical, tag, body) =>
        ClosedIsWhole(body.left);
        ClosedIsWhole(body.right);
        PrintGroup(vertical, tag, body);
        PrintCompose(body.op, body.left, body.right);
        SymbolText(body.op);
        PairEnclosable(Print(body.left), body.op.Symbol()[0], Print(body.right));
        TitledEnclosable(tag, Print(body));
        CallIsWhole(GroupName(vertical), Titled(tag, Print(body)));
      case Stereoize(body) =>
        ClosedIsWhole(body);
        PrintStereoize(body);
        WholeIsEnclosable(Print(body));
        CallIsWhole("stereoize", Print(body));
      case Recursivize(f, b) =>
        ClosedIsWhole(f);
        ClosedIsWhole(b);
        PrintRecursivize(f, b);
        PairEnclosable(Print(f), ',', Print(b));
        CallIsWhole("recursivize", Print(f) + ("," + Print(b)));
    }
  }

  lemma PrintText(text: string)
    ensures Print(Text(text)) == text
  {
  }

  // ---- equal texts come from equal expressions ----

  lemma SameCall(n: string, a: string, m: string, b: string)
    requires Call(n, a) == Call(m, b) && '(' !in n && '(' !in m
    ensures n == m && a == b
  {
    var s := Call(n, a);
    assert s[|n|] == '(' && s[|m|] == '(';
    assert forall i :: 0 <= i < |n| ==> s[i] == n[i];
    assert forall i :: 0 <= i < |m| ==> s[i] == m[i];
    assert |n| == |m|;
    assert s[..|n|] == n && s[..|m|] == m;
    assert s[|n| + 1..|s| - 1] == a && s[|m| + 1..|s| - 1] == b;
  }

  lemma SameTitled(tag: string, a: string, tag': string, b: string)
    requires Titled(tag, a) == Titled(tag', b) && QUOTE !in tag && QUOTE !in tag'
    ensures tag == tag' && a == b
  {
    var s := Titled(tag, a);
    assert s[|tag| + 1] == QUOTE && s[|tag'| + 1] == QUOTE;
    assert forall i :: 0 <= i < |tag| ==> s[i + 1] == tag[i];
    assert forall i :: 0 <= i < |tag'| ==> s[i + 1] == tag'[i];
    assert |tag| == |tag'|;
    assert s[1..|tag| + 1] == tag && s[1..|tag'| + 1] == tag';
    assert s[|tag| + 3..] == a && s[|tag'| + 3..] == b;
  }

  // The name and the arguments of an expression that is no text
  function NameOf(e: Expr): string
    requires Closed(e) && !e.Text?
  {
    match e
    case Component(_, _) => GroupName(true)
    case Group(vertical, _, _) => GroupName(vertical)
    case Stereoize(_) => "stereoize"
    case Recursivize(_, _) => "recursivize"
  }

  function ArgumentsOf(e: Expr): string
    requires Closed(e) && !e.Text?
  {
    match e
    case Component(tag, path) => Titled(tag, ComponentText(path))
    case Group(_, tag, body) => Titled(tag, Print(body))
    case Stereoize(body) => Print(body)
    case Recursivize(f, b) => Print(f) + ("," + Print(b))
  }

  lemma PrintCall(e: Expr)
    requires Closed(e) && !e.Text?
    ensures Print(e) == Call(NameOf(e), ArgumentsOf(e))
    ensures '(' !in NameOf(e)
  {
    hide Print, Call, Titled, ComponentText;
    match e {
      case Component(tag, path) => PrintComponent(tag, path);
      case Group(vertical, tag, body) => PrintGroup(vertical, tag, body);
      case Stereoize(body) => PrintStereoize(body);
      case Recursivize(f, b) => PrintRecursivize(f, b);
    }
  }

  // A text that is no construct is not printed by one.
  lemma CallIsReserved(e: Expr)
    requires Closed(e) && !e.Text?
    ensures Reserved(Print(e))
  {
    PrintCall(e);
    hide Print, Closed, ComponentText;
    var a := ArgumentsOf(e);
    if e.Component? || e.Group? {
      assert a[0] == QUOTE;
      BeginsWith(NameOf(e), a);
      assert "vgroup(\"" == "vgroup" + ("(" + [QUOTE]) && "hgroup(\"" == "hgroup" + ("(" + [QUOTE]);
    } else {
      BeginsWithName(NameOf(e), a);
      assert "stereoize(" == "stereoize" + "(" && "recursivize(" == "recursivize" + "(";
    }
  }

  lemma BeginsWith(name: string, a: string)
    requires a != ""
    ensures name + ("(" + [a[0]]) <= Call(name, a)
  {
    assert Call(name, a) == name + ("(" + [a[0]]) + (a[1..] + ")");
  }

  lemma BeginsWithName(name: string, a: string)
    ensures name + "(" <= Call(name, a)
  {
    assert Call(name, a) == name + "(" + (a + ")");
  }

  // Closed expressions with the same text are the same expression.
  lemma {:induction false} TextDeterminesProgram(e: Expr, e': Expr)
    requires Closed(e) && Closed(e') && Print(e) == Print(e')
    ensures e == e'
    decreases e
  {
    hide Print, Call, Titled, ComponentText, Reserved, Whole;
    if e.Text? || e'.Text? {
      TextIsText(e, e');
    } else {
      PrintCall(e);
      PrintCall(e');
      SameCall(NameOf(e), ArgumentsOf(e), NameOf(e'), ArgumentsOf(e'));
      match e {
        case Component(_, _) => SameBox(e, e');
        case Group(_, _, body) =>
          SameBox(e, e');
          ClosedIsWhole(body.left);
          ClosedIsWhole(body.right);
          ClosedIsWhole(e'.body.left);
          ClosedIsWhole(e'.body.right);
          SamePair(body, e'.body);
          TextDeterminesProgram(body.left, e'.body.left);
          TextDeterminesProgram(body.right, e'.body.right);
        case Stereoize(body) =>
          NamesDiffer(e, e');
          TextDeterminesProgram(body, e'.body);
        case Recursivize(f, b) =>
          NamesDiffer(e, e');
          ClosedIsWhole(f);
          ClosedIsWhole(e'.forward);
          SameWhole(Print(f), "," + Print(b), Print(e'.forward), "," + Print(e'.feedback));
          assert ("," + Print(b))[1..] == Print(b) && ("," + Print(e'.feedback))[1..] == Print(e'.feedback);
          TextDeterminesProgram(f, e'.forward);
          TextDeterminesProgram(b, e'.feedback);
      }
    }
  }

  lemma TextIsText(e: Expr, e': Expr)
    requires Closed(e) && Closed(e') && Print(e) == Print(e') && (e.Text? || e'.Text?)
    ensures e == e'
  {
    hide Reserved, Whole;
    if !e.Text? {
      CallIsReserved(e);
    }
    if !e'.Text? {
      CallIsReserved(e');
    }
  }

  lemma NamesDiffer(e: Expr, e': Expr)
    requires Closed(e) && Closed(e') && !e.Text? && !e'.Text? && NameOf(e) == NameOf(e')
    ensures (e.Stereoize? <==> e'.Stereoize?) && (e.Recursivize? <==> e'.Recursivize?)
    ensures e.Group? && e'.Group? ==> e.vertical == e'.vertical
  {
    assert NameOf(e)[0] == NameOf(e')[0];
  }

  // Two boxes with the same text: a component is no group, because its text has no operator outside.
  lemma SameBox(e: Expr, e': Expr)
    requires Closed(e) && Closed(e') && (e.Component? || e.Group?) && !e'.Text?
    requires NameOf(e) == NameOf(e') && ArgumentsOf(e) == ArgumentsOf(e')
    ensures e.Component? ==> e == e'
    ensures e.Group? ==> e'.Group? && e.vertical == e'.vertical && e.tag == e'.tag && Print(e.body) == Print(e'.body)
  {
    hide Print, Titled, ComponentText, Whole;
    NamesDiffer(e, e');
    var a := if e.Component? then ComponentText(e.path) else Print(e.body);
    var b := if e'.Component? then ComponentText(e'.path) else Print(e'.body);
    SameTitled(e.tag, a, e'.tag, b);
    if e.Component? && e'.Component? {
      SameComponent(e.path, e'.path);
    } else if e.Component? {
      ComponentIsNoPair(e.path, e'.body);
    } else if e'.Component? {
      ComponentIsNoPair(e'.path, e.body);
    }
  }

  lemma SameComponent(path: string, path': string)
    requires ComponentText(path) == ComponentText(path')
    ensures path == path'
  {
    hide Call;
    var a, b := [QUOTE] + (path + [QUOTE]), [QUOTE] + (path' + [QUOTE]);
    SameCall(" component", a, " component", b);
    assert a[1..|a| - 1] == path && b[1..|b| - 1] == path';
  }

  lemma ComponentIsNoPair(path: string, body: Expr)
    requires QUOTE !in path && body.Compose? && Closed(body.left)
    ensures ComponentText(path) != Print(body)
  {
    hide Print, ComponentText, Whole;
    var l, r := Print(body.left), Print(body.right);
    PrintCompose(body.op, body.left, body.right);
    SymbolText(body.op);
    ComponentTextIsWhole(path);
    ClosedIsWhole(body.left);
    if ComponentText(path) == Print(body) {
      assert ComponentText(path) + "" == ComponentText(path);
      SameWhole(ComponentText(path), "", l, body.op.Symbol() + r);
    }
  }

  lemma SamePair(body: Expr, body': Expr)
    requires body.Compose? && body'.Compose? && Print(body) == Print(body')
    requires Whole(Print(body.left)) && Whole(Print(body'.left))
    ensures body.op == body'.op
    ensures Print(body.left) == Print(body'.left) && Print(body.right) == Print(body'.right)
  {
    hide Print, Whole;
    var x, y := body.op.Symbol() + Print(body.right), body'.op.Symbol() + Print(body'.right);
    PrintCompose(body.op, body.left, body.right);
    PrintCompose(body'.op, body'.left, body'.right);
    SymbolText(body.op);
    SymbolText(body'.op);
    SameWhole(Print(body.left), x, Print(body'.left), y);
    assert x[1..] == Print(body.right) && y[1..] == Print(body'.right);
  }
}
