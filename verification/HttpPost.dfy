// The POST requests of src/Network/FLServerHttp.cpp: the thread of the server assembles the body, asks
// the GUI thread to compile it (FLApp::compile_HttpData), waits for a flag and answers its client.
// Every step below is one access to the members that both threads use.
module HttpPost {
  import opened CText
  import opened Options
  import opened Decimal

  const MAX_CLIENTS := 20

  // A value of a form, or a part of one
  datatype Chunk = Chunk(key: string, text: string)

  // connection_info, with the chunks that were received for it
  datatype Connection = Get | Post(chunks: seq<Chunk>, data: string, winUrl: string)

  datatype Outcome = Success(url: string) | Failure(error: string)

  datatype Response = Response(conn: nat, status: int, body: string)

  // What handlePost emits, and what compile_HttpData makes of it
  datatype Emitted = Emitted(conn: nat, chunks: seq<Chunk>)
  datatype Handled = Handled(conn: nat, source: string, port: int, outcome: Outcome)

  // The server thread: in handlePost for a connection, or not
  datatype ServerPc = Idle | Waiting(conn: nat) | Woken(conn: nat) | Cleared(conn: nat) | Chosen(conn: nat, ok: bool)

  // The GUI thread: in compile_HttpData, or not; an answer is written in three steps.
  datatype GuiPc = Free | Compiling(conn: nat, source: string, port: int) | Answering(outcome: Outcome, written: nat)

  datatype State = State(address: string, connections: map<nat, Connection>, uploadingClients: int,
                         posted: bool, compiled: bool, url: string, error: string,
                         server: ServerPc, gui: GuiPc, queue: seq<(nat, int)>,
                         emitted: seq<Emitted>, handled: seq<Handled>, responses: seq<Response>)

  datatype Event =
    | Connect(conn: nat, post: bool, processor: bool)
    | Upload(conn: nat, chunk: Chunk)
    | Submit(conn: nat)
    | Server
    | Complete(conn: nat)
    | Gui(outcome: Outcome)

  // ---- assembling a body ----

  // iteratePost
  function Iterated(c: Connection, chunk: Chunk): Connection
    requires c.Post?
  {
    Post(c.chunks + [chunk],
         if |chunk.text| > 0 && chunk.key == "var" then c.data + chunk.text else c.data,
         if |chunk.text| > 0 && chunk.key == "interfaceurl" then c.winUrl + chunk.text else c.winUrl)
  }

  // The value of a key: its chunks, joined
  function Value(chunks: seq<Chunk>, key: string): string {
    if chunks == [] then ""
    else (if chunks[0].key == key then chunks[0].text else "") + Value(chunks[1..], key)
  }

  lemma {:induction false} ValueAppend(chunks: seq<Chunk>, chunk: Chunk, key: string)
    ensures Value(chunks + [chunk], key) == Value(chunks, key) + (if chunk.key == key then chunk.text else "")
  {
    if chunks == [] {
      assert chunks + [chunk] == [chunk];
      assert Value([chunk], key) == (if chunk.key == key then chunk.text else "") + "";
    } else {
      assert (chunks + [chunk])[1..] == chunks[1..] + [chunk];
      ValueAppend(chunks[1..], chunk, key);
    }
  }

  // A body comes in any chunks.
  lemma {:induction false} ValueConcat(chunks: seq<Chunk>, more: seq<Chunk>, key: string)
    ensures Value(chunks + more, key) == Value(chunks, key) + Value(more, key)
  {
    if chunks == [] {
      assert chunks + more == more;
    } else {
      assert (chunks + more)[1..] == chunks[1..] + more;
      ValueConcat(chunks[1..], more, key);
    }
  }

  lemma ValueOfChunk(chunk: Chunk, key: string)
    ensures Value([chunk], key) == if chunk.key == key then chunk.text else ""
  {
    assert [chunk][1..] == [];
  }

  ghost predicate Assembled(c: Connection) {
    c.Post? ==> c.data == Value(c.chunks, "var") && c.winUrl == Value(c.chunks, "interfaceurl")
  }

  lemma IteratedIsAssembled(c: Connection, chunk: Chunk)
    requires c.Post? && Assembled(c)
    ensures Assembled(Iterated(c, chunk))
  {
    ValueAppend(c.chunks, chunk, "var");
    ValueAppend(c.chunks, chunk, "interfaceurl");
    assert c.data + "" == c.data && c.winUrl + "" == c.winUrl;
  }

  class ConnectionInfo {
    var data: string
    var winUrl: string
    ghost var chunks: seq<Chunk>

    ghost function AsPost(): Connection
      reads this
    {
      Post(chunks, data, winUrl)
    }

    constructor ()
      ensures AsPost() == Post([], "", "")
    {
      data, winUrl, chunks := "", "", [];
    }

    method IteratePost(chunk: Chunk)
      modifies this
      ensures AsPost() == Iterated(old(AsPost()), chunk) && chunks == old(chunks) + [chunk]
      ensures data == old(data) + if chunk.key == "var" then chunk.text else ""
      ensures winUrl == old(winUrl) + if chunk.key == "interfaceurl" then chunk.text else ""
    {
      if |chunk.text| > 0 {
        if chunk.key == "var" {
          data := data + chunk.text;
        }
        if chunk.key == "interfaceurl" {
          winUrl := winUrl + chunk.text;
        }
      }
      chunks := chunks + [chunk];
    }
  }

  // ---- the port of a window ----

  // `rfind` of a character
  function LastIndex(s: string, c: char): Option<nat> {
    if s == "" then None
    else if s[|s| - 1] == c then Some(|s| - 1)
    else LastIndex(s[..|s| - 1], c)
  }

  lemma {:induction false} LastIndexInside(s: string, c: char)
    ensures LastIndex(s, c).Some? ==> LastIndex(s, c).value < |s|
  {
    if s != "" && s[|s| - 1] != c {
      LastIndexInside(s[..|s| - 1], c);
    }
  }

  // The text between the last colon and the last character; the whole text but its last character if
  // there is no colon, and nothing if the colon is the last character.
  function PortText(winUrl: string): string
    requires winUrl != ""
  {
    LastIndexInside(winUrl, ':');
    match LastIndex(winUrl, ':')
    case None => winUrl[..|winUrl| - 1]
    case Some(pos) => if pos + 1 == |winUrl| then "" else winUrl[pos + 1..|winUrl| - 1]
  }

  // The leading digits of a text
  function Digits(s: string): (n: nat)
    ensures n <= |s| && forall i :: 0 <= i < n ==> IsDigit(s[i])
  {
    if s == "" || !IsDigit(s[0]) then 0 else 1 + Digits(s[1..])
  }

  // atoi, for values in the range of int
  function Atoi(s: string): int
    decreases |s|
  {
    if s != "" && IsCSpace(s[0]) then Atoi(s[1..])
    else if s != "" && s[0] == '-' then 0 - NatValue(s[1..][..Digits(s[1..])])
    else if s != "" && s[0] == '+' then NatValue(s[1..][..Digits(s[1..])])
    else NatValue(s[..Digits(s)])
  }

  function PortOf(winUrl: string, address: string): int {
    if winUrl != "" && winUrl != address then Atoi(PortText(winUrl)) else 0
  }

  lemma {:induction false} AllDigits(s: string)
    requires forall i :: 0 <= i < |s| ==> IsDigit(s[i])
    ensures Digits(s) == |s|
  {
    if s != "" {
      AllDigits(s[1..]);
    }
  }

  lemma {:induction false} LastColon(before: string, after: string)
    requires ':' !in after
    ensures LastIndex(before + ":" + after, ':') == Some(|before|)
    decreases |after|
  {
    var s := before + ":" + after;
    if after != "" {
      assert s[|s| - 1] == after[|after| - 1];
      assert s[..|s| - 1] == before + ":" + after[..|after| - 1];
      LastColon(before, after[..|after| - 1]);
    }
  }

  // The address of a window's interface, as the page sends it, gives the port of the window.
  lemma PortOfWindow(host: string, port: nat, address: string)
    requires host + ":" + (NatText(port) + "/") != address
    ensures PortOf(host + ":" + (NatText(port) + "/"), address) == port
  {
    hide NatText, PortText, Atoi;
    PortTextOfWindow(host, NatText(port));
    AtoiOfNat(port);
  }

  lemma PortTextOfWindow(host: string, digits: string)
    requires forall i :: 0 <= i < |digits| ==> IsDigit(digits[i])
    ensures PortText(host + ":" + (digits + "/")) == digits
  {
    hide LastIndex;
    LastColon(host, digits + "/");
  }

  lemma AtoiOfNat(port: nat)
    ensures Atoi(NatText(port)) == port
  {
    hide NatText, NatValue, Digits;
    var digits := NatText(port);
    AllDigits(digits);
    assert digits[..|digits|] == digits;
    assert IsDigit(digits[0]);
    NatRoundTrip(port);
  }

  // `atoi` reads blanks, a sign and digits, and stops there.
  lemma {:induction false} AtoiReads(blanks: string, sign: string, digits: string, rest: string)
    requires CBlank(blanks) && (sign == "" || sign == "+" || sign == "-")
    requires forall i :: 0 <= i < |digits| ==> IsDigit(digits[i])
    requires rest != "" ==> !IsDigit(rest[0])
    requires sign == "" && digits == "" && rest != "" ==> !IsCSpace(rest[0]) && rest[0] != '+' && rest[0] != '-'
    ensures Atoi(blanks + (sign + (digits + rest))) == if sign == "-" then 0 - NatValue(digits) else NatValue(digits)
    decreases |blanks|
  {
    hide NatValue;
    if blanks == "" {
      var s := digits + rest;
      assert "" + (sign + s) == sign + s && "" + s == s;
      LeadingDigits(digits, rest);
      assert s[..|digits|] == digits;
      if sign == "" {
        assert s != "" ==> !IsCSpace(s[0]) && s[0] != '+' && s[0] != '-';
      } else {
        assert (sign + s)[0] == sign[0] && (sign + s)[1..] == s;
      }
    } else {
      var s := sign + (digits + rest);
      assert (blanks + s)[0] == blanks[0] && (blanks + s)[1..] == blanks[1..] + s;
      AtoiReads(blanks[1..], sign, digits, rest);
    }
  }

  lemma {:induction false} LeadingDigits(digits: string, rest: string)
    requires forall i :: 0 <= i < |digits| ==> IsDigit(digits[i])
    requires rest != "" ==> !IsDigit(rest[0])
    ensures Digits(digits + rest) == |digits|
  {
    if digits == "" {
      assert digits + rest == rest;
    } else {
      assert (digits + rest)[1..] == digits[1..] + rest;
      LeadingDigits(digits[1..], rest);
    }
  }

  // What `atoi` is given: the text between the last colon and the last character, the text up to its last
  // character if it has no colon, and nothing if the colon is the last character.
  lemma PortTextOf(before: string, text: string, last: char)
    requires ':' !in text && last != ':'
    ensures PortText(before + ":" + (text + [last])) == text
    ensures PortText(text + [last]) == text
    ensures PortText(before + ":") == ""
  {
    hide LastIndex;
    LastColon(before, text + [last]);
    LastColon(before, "");
    assert before + ":" + "" == before + ":";
    NoColon(text + [last]);
  }

  lemma {:induction false} NoColon(s: string)
    requires ':' !in s
    ensures LastIndex(s, ':') == None
  {
    if s != "" {
      NoColon(s[..|s| - 1]);
    }
  }

  predicate IsAddressOf(url: string, host: string, port: nat) { url == host + ":" + (NatText(port) + "/") }

  // Nothing, or the page of the server itself, asks for a new window, which is port 0; the page of an
  // interface asks for its own port.
  ghost predicate RightPort(url: string, address: string, port: int) {
    && (url == "" || url == address ==> port == 0)
    && (url != address ==> forall host: string, p: nat :: IsAddressOf(url, host, p) ==> port == p)
  }

  lemma PortIsRight(url: string, address: string)
    ensures RightPort(url, address, PortOf(url, address))
  {
    hide NatText, PortText, Atoi;
    if url != address {
      forall host: string, p: nat | IsAddressOf(url, host, p) ensures PortOf(url, address) == p {
        PortOfWindow(host, p, address);
      }
    }
  }

  // ---- the steps ----

  function Page(outcome: Outcome): string {
    match outcome
    case Success(url) => url
    case Failure(error) =>
      "<html>\n<body>\nImpossible to compile this file : \n" + error + "\n</body>\n</html>"
  }

  function Status(outcome: Outcome): int { if outcome.Success? then 200 else 400 }

  function ServerStep(s: State): State {
    match s.server
    case Idle => s
    case Waiting(c) => if s.posted then s.(server := Woken(c)) else s
    case Woken(c) => s.(posted := false, server := Cleared(c))
    case Cleared(c) => s.(server := Chosen(c, s.compiled))
    case Chosen(c, ok) =>
      var outcome := if ok then Success(s.url) else Failure(s.error);
      s.(responses := s.responses + [Response(c, Status(outcome), Page(outcome))], server := Idle)
  }

  // compile_HttpData reads the text through the pointer that was emitted.
  function GuiStep(s: State, outcome: Outcome): State {
    match s.gui
    case Free =>
      if s.queue == [] then s
      else
        var (c, port) := s.queue[0];
        var source := if c in s.connections && s.connections[c].Post? then CStr(s.connections[c].data) else "";
        s.(gui := Compiling(c, source, port), queue := s.queue[1..])
    case Compiling(c, source, port) =>
      s.(gui := Answering(outcome, 0), handled := s.handled + [Handled(c, source, port, outcome)])
    case Answering(Success(url), 0) => s.(url := url, gui := Answering(Success(url), 1))
    case Answering(Success(url), 1) => s.(compiled := true, gui := Answering(Success(url), 2))
    case Answering(Failure(error), 0) => s.(compiled := false, gui := Answering(Failure(error), 1))
    case Answering(Failure(error), 1) => s.(error := error, gui := Answering(Failure(error), 2))
    case Answering(_, _) => s.(posted := true, gui := Free)
  }

  // The server has one thread: it serves no other connection while it waits in handlePost.
  function Step(s: State, e: Event): State {
    match e
    case Connect(c, post, processor) =>
      if s.server != Idle || c in s.connections || s.uploadingClients >= MAX_CLIENTS || (post && !processor) then s
      else s.(connections := s.connections[c := if post then Post([], "", "") else Get],
              uploadingClients := s.uploadingClients + if post then 1 else 0)
    case Upload(c, chunk) =>
      if s.server != Idle || c !in s.connections || s.connections[c].Get? then s
      else s.(connections := s.connections[c := Iterated(s.connections[c], chunk)])
    case Submit(c) =>
      if s.server != Idle || c !in s.connections || s.connections[c].Get? then s
      else s.(queue := s.queue + [(c, PortOf(s.connections[c].winUrl, s.address))],
              emitted := s.emitted + [Emitted(c, s.connections[c].chunks)],
              server := Waiting(c))
    case Server => ServerStep(s)
    case Complete(c) =>
      if s.server != Idle || c !in s.connections then s
      else s.(connections := s.connections - {c},
              uploadingClients := s.uploadingClients - if s.connections[c].Post? then 1 else 0)
    case Gui(outcome) => GuiStep(s, outcome)
  }

  function Run(s: State, events: seq<Event>): State {
    if events == [] then s else Step(Run(s, events[..|events| - 1]), events[|events| - 1])
  }

  // After the constructor, with no connection and nothing in the queue
  predicate Initial(s: State) {
    && s.connections == map[] && s.uploadingClients == 0 && !s.posted && !s.compiled
    && s.server == Idle && s.gui == Free && s.queue == []
    && s.emitted == [] && s.handled == [] && s.responses == []
  }

  // ---- what every step keeps ----

  function Posts(connections: map<nat, Connection>): set<nat> {
    set c | c in connections && connections[c].Post?
  }

  // The counter of clients counts the POST connections, at most the maximum.
  ghost predicate Counted(s: State) {
    s.uploadingClients == |Posts(s.connections)| <= MAX_CLIENTS
  }

  ghost predicate AllAssembled(s: State) { forall c :: c in s.connections ==> Assembled(s.connections[c]) }

  // What a request is, for whoever sent these chunks
  function SourceOf(e: Emitted): string { CStr(Value(e.chunks, "var")) }

  function PortFor(e: Emitted, address: string): int { PortOf(Value(e.chunks, "interfaceurl"), address) }

  // A request was handled as it was emitted.
  ghost predicate Same(h: Handled, e: Emitted, address: string) {
    h.conn == e.conn && h.source == SourceOf(e) && h.port == PortFor(e, address)
  }

  // A response is built from an outcome.
  ghost predicate BuiltFrom(r: Response, h: Handled) {
    r == Response(h.conn, Status(h.outcome), Page(h.outcome))
  }

  ghost predicate Logs(s: State) {
    && |s.responses| <= |s.handled| <= |s.emitted| <= |s.responses| + 1
    && (forall i :: 0 <= i < |s.handled| ==> Same(s.handled[i], s.emitted[i], s.address))
    && (forall i :: 0 <= i < |s.responses| ==> BuiltFrom(s.responses[i], s.handled[i]))
  }

  // The members hold the outcome, up to the number of steps in which it is written.
  ghost predicate Holds(s: State, outcome: Outcome, written: nat) {
    match outcome
    case Success(url) => (written >= 1 ==> s.url == url) && (written >= 2 ==> s.compiled)
    case Failure(error) => (written >= 1 ==> !s.compiled) && (written >= 2 ==> s.error == error)
  }

  // Between the emission and the flag, the GUI thread has the request, and nobody else.
  ghost predicate InHand(s: State, c: nat)
    requires |s.responses| < |s.emitted|
  {
    var n := |s.responses|;
    && !s.posted
    && match s.gui
       case Free => |s.handled| == n && s.queue == [(c, PortFor(s.emitted[n], s.address))]
       case Compiling(d, source, port) =>
         && s.queue == [] && |s.handled| == n
         && d == c && source == SourceOf(s.emitted[n]) && port == PortFor(s.emitted[n], s.address)
       case Answering(outcome, written) =>
         && s.queue == [] && |s.handled| == n + 1 && written <= 2
         && s.handled[n].outcome == outcome && Holds(s, outcome, written)
  }

  // The answer is there.
  ghost predicate Ready(s: State) {
    && s.queue == [] && s.gui == Free && |s.handled| == |s.responses| + 1
    && Holds(s, s.handled[|s.responses|].outcome, 2)
  }

  ghost predicate Phase(s: State) {
    && |s.responses| <= |s.handled| <= |s.emitted|
    && (s.server.Idle? ==>
         && s.queue == [] && s.gui == Free && !s.posted && |s.emitted| == |s.responses|)
    && (!s.server.Idle? ==>
         && |s.emitted| == |s.responses| + 1 && s.emitted[|s.responses|].conn == s.server.conn
         && s.server.conn in s.connections && s.connections[s.server.conn].Post?
         && s.connections[s.server.conn].chunks == s.emitted[|s.responses|].chunks)
    && match s.server
       case Idle => true
       case Waiting(c) => if s.posted then Ready(s) else InHand(s, c)
       case Woken(c) => Ready(s) && s.posted
       case Cleared(c) => Ready(s) && !s.posted
       case Chosen(c, ok) => Ready(s) && !s.posted && ok == s.compiled
  }

  ghost predicate Invariant(s: State) { Counted(s) && AllAssembled(s) && Logs(s) && Phase(s) }

  lemma PostsChange(connections: map<nat, Connection>, c: nat, conn: Connection)
    ensures Posts(connections[c := conn]) == if conn.Post? then Posts(connections) + {c} else Posts(connections) - {c}
    ensures Posts(connections - {c}) == Posts(connections) - {c}
  {
  }

  lemma InPosts(connections: map<nat, Connection>, c: nat)
    ensures c in Posts(connections) <==> c in connections && connections[c].Post?
  {
  }

  lemma StepCounts(s: State, e: Event)
    requires Counted(s)
    ensures Counted(Step(s, e))
  {
    hide Posts, ServerStep, GuiStep, PortOf;
    match e {
      case Connect(c, post, processor) =>
        PostsChange(s.connections, c, if post then Post([], "", "") else Get);
        InPosts(s.connections, c);
      case Upload(c, chunk) =>
        if c in s.connections && s.connections[c].Post? {
          PostsChange(s.connections, c, Iterated(s.connections[c], chunk));
          InPosts(s.connections, c);
          assert Posts(s.connections) + {c} == Posts(s.connections);
        }
      case Complete(c) =>
        PostsChange(s.connections, c, Get);
        InPosts(s.connections, c);
      case Gui(outcome) => GuiKeepsConnections(s, outcome);
      case Server => ServerKeepsConnections(s);
      case Submit(_) =>
    }
  }

  lemma GuiKeepsConnections(s: State, outcome: Outcome)
    ensures var t := GuiStep(s, outcome);
      t.connections == s.connections && t.uploadingClients == s.uploadingClients && t.address == s.address
      && t.server == s.server && t.emitted == s.emitted && t.responses == s.responses
  {
    hide CStr;
  }

  lemma ServerKeepsConnections(s: State)
    ensures var t := ServerStep(s);
      t.connections == s.connections && t.uploadingClients == s.uploadingClients && t.address == s.address
      && t.gui == s.gui && t.emitted == s.emitted && t.handled == s.handled && t.queue == s.queue
  {
    hide Page, Status;
  }

  lemma StepAssembles(s: State, e: Event)
    requires AllAssembled(s)
    ensures AllAssembled(Step(s, e))
  {
    assert Assembled(Post([], "", "")) && Assembled(Get);
    hide ServerStep, GuiStep, Assembled, PortOf;
    match e {
      case Connect(c, post, processor) =>
      case Upload(c, chunk) =>
        if c in s.connections && s.connections[c].Post? {
          IteratedIsAssembled(s.connections[c], chunk);
        }
      case Gui(outcome) => GuiKeepsConnections(s, outcome);
      case Server => ServerKeepsConnections(s);
      case Complete(_) =>
      case Submit(_) =>
    }
  }

  // The GUI thread takes the request: what it reads is what was sent.
  lemma TakeKeepsPhase(s: State, outcome: Outcome)
    requires AllAssembled(s) && Logs(s) && Phase(s) && s.gui.Free?
    ensures Logs(GuiStep(s, outcome)) && Phase(GuiStep(s, outcome))
  {
    hide CStr, PortOf, Value, Page, Same, BuiltFrom, Holds;
    if s.queue != [] {
      assert Assembled(s.connections[s.server.conn]);
    }
  }

  lemma DecideKeepsPhase(s: State, outcome: Outcome)
    requires Logs(s) && Phase(s) && s.gui.Compiling?
    ensures Logs(GuiStep(s, outcome)) && Phase(GuiStep(s, outcome))
  {
    hide CStr, PortOf, Value, Page, BuiltFrom, SourceOf, PortFor;
    var t := GuiStep(s, outcome);
    assert t.handled[|s.handled|] == Handled(s.gui.conn, s.gui.source, s.gui.port, outcome);
    assert Same(t.handled[|s.handled|], s.emitted[|s.handled|], s.address);
    assert forall i :: 0 <= i < |s.handled| ==> t.handled[i] == s.handled[i];
  }

  lemma WriteKeepsPhase(s: State, outcome: Outcome)
    requires Logs(s) && Phase(s) && s.gui.Answering?
    ensures Logs(GuiStep(s, outcome)) && Phase(GuiStep(s, outcome))
  {
    hide CStr, PortOf, Value, Page, Same, BuiltFrom;
  }

  lemma GuiKeepsPhase(s: State, outcome: Outcome)
    requires AllAssembled(s) && Logs(s) && Phase(s)
    ensures Logs(GuiStep(s, outcome)) && Phase(GuiStep(s, outcome))
  {
    hide AllAssembled, Logs, Phase, GuiStep;
    match s.gui {
      case Free => TakeKeepsPhase(s, outcome);
      case Compiling(_, _, _) => DecideKeepsPhase(s, outcome);
      case Answering(_, _) => WriteKeepsPhase(s, outcome);
    }
  }

  lemma ServerKeepsPhase(s: State)
    requires Logs(s) && Phase(s)
    ensures Logs(ServerStep(s)) && Phase(ServerStep(s))
  {
    hide CStr, PortOf, Value, Page, SourceOf, PortFor;
    if s.server.Chosen? {
      var n := |s.responses|;
      assert Same(s.handled[n], s.emitted[n], s.address);
      assert BuiltFrom(ServerStep(s).responses[n], s.handled[n]);
    }
  }

  lemma SubmitKeepsPhase(s: State, c: nat)
    requires AllAssembled(s) && Logs(s) && Phase(s)
    ensures Logs(Step(s, Submit(c))) && Phase(Step(s, Submit(c)))
  {
    hide CStr, PortOf, Value, Page, Same, BuiltFrom;
    if c in s.connections {
      assert Assembled(s.connections[c]);
    }
  }

  lemma OthersKeepPhase(s: State, e: Event)
    requires e.Connect? || e.Upload? || e.Complete?
    requires Logs(s) && Phase(s)
    ensures Logs(Step(s, e)) && Phase(Step(s, e))
  {
    hide Iterated, Same, BuiltFrom, PortOf, InHand, Ready;
  }

  lemma StepKeepsInvariant(s: State, e: Event)
    requires Invariant(s)
    ensures Invariant(Step(s, e))
  {
    hide Counted, AllAssembled, Logs, Phase;
    StepCounts(s, e);
    StepAssembles(s, e);
    match e {
      case Gui(outcome) => GuiKeepsPhase(s, outcome);
      case Server => ServerKeepsPhase(s);
      case Submit(c) => SubmitKeepsPhase(s, c);
      case Connect(_, _, _) => OthersKeepPhase(s, e);
      case Upload(_, _) => OthersKeepPhase(s, e);
      case Complete(_) => OthersKeepPhase(s, e);
    }
  }

  lemma InitialInvariant(s: State)
    requires Initial(s)
    ensures Invariant(s)
  {
  }

  lemma {:induction false} RunKeepsInvariant(s: State, events: seq<Event>)
    requires Initial(s)
    ensures Invariant(Run(s, events))
  {
    hide Step, Invariant;
    if events == [] {
      InitialInvariant(s);
    } else {
      RunKeepsInvariant(s, events[..|events| - 1]);
      StepKeepsInvariant(Run(s, events[..|events| - 1]), events[|events| - 1]);
    }
  }

  // ---- main results, over every interleaving ----

  // Response number i answers request number i: the GUI thread has compiled the text that this client
  // sent, for the window that it named, and the client is told the outcome of that compilation.
  lemma RunAnswersItsRequest(s: State, events: seq<Event>, i: nat)
    requires Initial(s) && i < |Run(s, events).responses|
    ensures var t := Run(s, events);
      && i < |t.handled| && i < |t.emitted|
      && t.responses[i].conn == t.emitted[i].conn
      && t.handled[i].source == CStr(Value(t.emitted[i].chunks, "var"))
      && t.handled[i].port == PortOf(Value(t.emitted[i].chunks, "interfaceurl"), t.address)
      && RightPort(Value(t.emitted[i].chunks, "interfaceurl"), t.address, t.handled[i].port)
      && match t.handled[i].outcome
         case Success(url) => t.responses[i].status == 200 && t.responses[i].body == url
         case Failure(error) =>
           && t.responses[i].status == 400
           && t.responses[i].body
              == "<html>\n<body>\nImpossible to compile this file : \n" + error + "\n</body>\n</html>"
  {
    hide Run, CStr, PortOf, Value, Phase, RightPort;
    RunKeepsInvariant(s, events);
    PortIsRight(Value(Run(s, events).emitted[i].chunks, "interfaceurl"), Run(s, events).address);
    assert Same(Run(s, events).handled[i], Run(s, events).emitted[i], Run(s, events).address);
  }

  lemma RunMore(s: State, events: seq<Event>, e: Event)
    ensures Run(s, events + [e]) == Step(Run(s, events), e)
  {
    assert (events + [e])[..|events|] == events;
  }

  // Requests are answered: a client that connects, sends its text and submits it gets the outcome, when the
  // two threads go on.
  lemma RequestIsAnswered(s: State, c: nat, text: string, outcome: Outcome)
    requires Initial(s)
    ensures exists events: seq<Event> :: var t := Run(s, events);
      && t.handled == [Handled(c, CStr(text), 0, outcome)] && |t.responses| == 1 && t.responses[0].conn == c
      && t.server.Idle?
  {
    hide Run, Step, CStr;
    var e0, e1, e2 := Connect(c, true, true), Upload(c, Chunk("var", text)), Submit(c);
    var g, v := Gui(outcome), Server;
    var s0 := RunThree(s, [], e0, e1, e2);
    Received(s, s0[0], s0[1], s0[2], c, text);
    assert [] + [e0, e1, e2] == [e0, e1, e2];
    var s1 := RunThree(s, [e0, e1, e2], g, g, g);
    var events := [e0, e1, e2] + [g, g, g];
    var s2 := RunThree(s, events, g, g, v);
    Compiled(s0[2], s1[0], s1[1], s1[2], s2[0], s2[1], c, text, outcome);
    var s3 := RunThree(s, events + [g, g, v], v, v, v);
    Answered(s2[1], s2[2], s3[0], s3[1], s3[2], c, outcome);
    assert Run(s, events + [g, g, v] + [v, v, v]) == s3[2];
  }

  lemma RunThree(s: State, events: seq<Event>, a: Event, b: Event, c: Event) returns (states: seq<State>)
    ensures |states| == 3 && (events == [] ==> states[0] == Step(s, a)) && states[0] == Step(Run(s, events), a)
    ensures states[1] == Step(states[0], b) && states[2] == Step(states[1], c)
    ensures Run(s, events + [a, b, c]) == states[2]
  {
    hide Step;
    RunMore(s, events, a);
    RunMore(s, events + [a], b);
    RunMore(s, events + [a] + [b], c);
    assert events + [a] + [b] + [c] == events + [a, b, c];
    states := [Step(Run(s, events), a), Run(s, events + [a] + [b]), Run(s, events + [a, b, c])];
  }

  lemma Received(s: State, s1: State, s2: State, s3: State, c: nat, text: string)
    requires Initial(s) && s1 == Step(s, Connect(c, true, true)) && s2 == Step(s1, Upload(c, Chunk("var", text)))
    requires s3 == Step(s2, Submit(c))
    ensures s3.server == Waiting(c) && s3.gui == Free && !s3.posted && s3.queue == [(c, 0)]
    ensures s3.handled == [] && s3.responses == []
    ensures c in s3.connections && s3.connections[c].Post? && s3.connections[c].data == text
  {
    assert s2.connections[c].data == "" + text == text && s2.connections[c].winUrl == "";
  }

  lemma Compiled(s: State, s1: State, s2: State, s3: State, s4: State, s5: State, c: nat, text: string, o: Outcome)
    requires s.server == Waiting(c) && s.gui == Free && !s.posted && s.queue == [(c, 0)]
    requires s.handled == [] && s.responses == []
    requires c in s.connections && s.connections[c].Post? && s.connections[c].data == text
    requires s1 == Step(s, Gui(o)) && s2 == Step(s1, Gui(o)) && s3 == Step(s2, Gui(o)) && s4 == Step(s3, Gui(o))
    requires s5 == Step(s4, Gui(o))
    ensures s5.server == Waiting(c) && s5.posted && s5.gui == Free && s5.responses == []
    ensures s5.handled == [Handled(c, CStr(text), 0, o)]
  {
    hide CStr;
    assert s1.gui == Compiling(c, CStr(text), 0);
    assert s2.gui == Answering(o, 0);
    assert s3.gui == Answering(o, 1);
    assert s4.gui == Answering(o, 2);
  }

  lemma Answered(s: State, s1: State, s2: State, s3: State, s4: State, c: nat, o: Outcome)
    requires s.server == Waiting(c) && s.posted && s.responses == []
    requires s1 == Step(s, Server) && s2 == Step(s1, Server) && s3 == Step(s2, Server) && s4 == Step(s3, Server)
    ensures s4.server == Idle && |s4.responses| == 1 && s4.responses[0].conn == c && s4.handled == s.handled
  {
    hide Page, Status;
    assert s1.server == Woken(c);
    assert s2.server == Cleared(c);
    assert s3.server.Chosen? && s3.server.conn == c;
  }

  // At most one request is outstanding, and only while the server waits for it. Its connection is then
  // alive, so that the pointer in the queue is valid.
  lemma RunHasOneRequest(s: State, events: seq<Event>)
    requires Initial(s)
    ensures var t := Run(s, events);
      && |t.queue| + (if t.gui.Free? then 0 else 1) + (if t.posted then 1 else 0) <= 1
      && (t.queue != [] || !t.gui.Free? || t.posted ==> !t.server.Idle?)
      && |t.responses| <= |t.emitted| <= |t.responses| + 1
      && (forall q :: q in t.queue ==> q.0 in t.connections && t.connections[q.0].Post?)
  {
    hide Run, Counted, AllAssembled, Logs;
    RunKeepsInvariant(s, events);
  }

  lemma RunCountsClients(s: State, events: seq<Event>)
    requires Initial(s)
    ensures var t := Run(s, events); t.uploadingClients == |Posts(t.connections)| <= MAX_CLIENTS
  {
    hide Run, AllAssembled, Logs, Phase, Posts;
    RunKeepsInvariant(s, events);
  }

  // The data of every connection is the value of "var" in what was received so far.
  lemma RunAssembles(s: State, events: seq<Event>, c: nat)
    requires Initial(s) && c in Run(s, events).connections && Run(s, events).connections[c].Post?
    ensures var conn := Run(s, events).connections[c];
      conn.data == Value(conn.chunks, "var") && conn.winUrl == Value(conn.chunks, "interfaceurl")
  {
    hide Run, Counted, Logs, Phase, Value;
    RunKeepsInvariant(s, events);
    assert Assembled(Run(s, events).connections[c]);
  }
}
