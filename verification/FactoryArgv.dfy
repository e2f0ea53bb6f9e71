// The argument vector of the compiler: FLSessionManager::getFactoryArgv.
module FactoryArgv {
  import opened Options
  import opened OptionWords

  // What getFactoryArgv reads of the settings of a window.
  datatype Settings = Settings(polyphony: bool, voices: string, group: bool)

  function Switch(on: bool): string { if on then "1" else "0" }

  function MachineArgs(settings: Option<Settings>): seq<string> {
    if settings.Some? then ["-lm", ""] else []
  }

  function PathArgs(sourcePath: string, folder: string): seq<string> {
    if sourcePath != "" then ["-I", folder] else []
  }

  function LibraryArgs(session: string): seq<string> {
    ["-I", session + "/Libs", "-I", session + "/Examples"]
  }

  function PolyphonyArgs(settings: Option<Settings>): seq<string> {
    match settings
    case None => []
    case Some(s) => ["-poly", Switch(s.polyphony), "-voices", s.voices, "-group", Switch(s.group)]
  }

  // The arguments, in order: the options are the blank-separated words of the option text.
  function Arguments(sourcePath: string, folder: string, options: string, session: string,
                     settings: Option<Settings>): seq<string> {
    MachineArgs(settings) + PathArgs(sourcePath, folder) + Words(options)
    + LibraryArgs(session) + PolyphonyArgs(settings)
  }

  // The filled part of an argument vector.
  ghost predicate Holds(argv: array<Option<string>>, args: seq<string>)
    reads argv
  {
    |args| <= argv.Length && forall i :: 0 <= i < |args| ==> argv[i] == Some(args[i])
  }

  // argv[iteratorParams++] = strdup(text)
  method Put(argv: array<Option<string>>, iteratorParams: nat, text: string, ghost args: seq<string>)
    returns (next: nat)
    requires Holds(argv, args) && iteratorParams == |args| < argv.Length
    modifies argv
    ensures Holds(argv, args + [text]) && next == iteratorParams + 1
  {
    argv[iteratorParams] := Some(text);
    next := iteratorParams + 1;
  }

  // Wherever they stand in the vector, the options are its words in order, and the folder of the source
  // is just before them, exactly when the source is a file.
  lemma OptionsInArguments(sourcePath: string, folder: string, options: string, session: string,
                           settings: Option<Settings>)
    ensures
      var args := Arguments(sourcePath, folder, options, session, settings);
      var at := (if settings.Some? then 2 else 0) + (if sourcePath != "" then 2 else 0);
      && at + |Words(options)| <= |args| && args[at..at + |Words(options)|] == Words(options)
      && (sourcePath != "" <==> at >= 2 && args[at - 2..at] == ["-I", folder])
      && args[at + |Words(options)|..][..4] == ["-I", session + "/Libs", "-I", session + "/Examples"]
      && |args| == at + |Words(options)| + 4 + (if settings.Some? then 6 else 0)
  {
    hide Words;
    var before := MachineArgs(settings) + PathArgs(sourcePath, folder);
    var after := LibraryArgs(session) + PolyphonyArgs(settings);
    Middle(before, Words(options), after);
    assert Arguments(sourcePath, folder, options, session, settings) == before + Words(options) + after;
    BeforeOptions(sourcePath, folder, settings);
  }

  lemma Middle(before: seq<string>, words: seq<string>, after: seq<string>)
    ensures var args := before + words + after;
      && args[|before|..|before| + |words|] == words && args[|before| + |words|..] == after
      && (|before| >= 2 ==> args[|before| - 2..|before|] == before[|before| - 2..])
  {
  }

  lemma BeforeOptions(sourcePath: string, folder: string, settings: Option<Settings>)
    ensures var before := MachineArgs(settings) + PathArgs(sourcePath, folder);
      sourcePath != "" <==> |before| >= 2 && before[|before| - 2..] == ["-I", folder]
  {
    var before := MachineArgs(settings) + PathArgs(sourcePath, folder);
    if sourcePath != "" {
      assert before[|before| - 2..] == ["-I", folder];
    } else if |before| >= 2 {
      assert before[|before| - 2..][0] == "-lm" && "-lm"[1] != "-I"[1];
    }
  }

  // `folder` is the folder of the source file. Exactly `argc` entries are filled, in this order,
  // and one more that ends the vector.
  method GetFactoryArgv(sourcePath: string, folder: string, faustOptions: string, session: string,
                        settings: Option<Settings>) returns (argc: nat, argv: array<Option<string>>)
    ensures fresh(argv) && argv.Length == argc + 1 && argv[argc] == None
    ensures
      var args := (if settings.Some? then ["-lm", ""] else [])
        + (if sourcePath != "" then ["-I", folder] else [])
        + Words(faustOptions)
        + ["-I", session + "/Libs", "-I", session + "/Examples"]
        + (match settings
           case None => []
           case Some(s) => ["-poly", if s.polyphony then "1" else "0", "-voices", s.voices,
                            "-group", if s.group then "1" else "0"]);
      && args == Arguments(sourcePath, folder, faustOptions, session, settings)
      && argc == |args| && forall i :: 0 <= i < argc ==> argv[i] == Some(args[i])
  {
    hide Words, IsSpace;
    var numberFixedParams := 4;
    if settings.Some? {
      numberFixedParams := numberFixedParams + 6;
    }
    if settings.Some? {
      numberFixedParams := numberFixedParams + 2;
    }
    if sourcePath != "" {
      numberFixedParams := numberFixedParams + 2;
    }
    argc := numberFixedParams;
    var words := GetNumberParameters(faustOptions);
    argc := argc + words;
    argv := new Option<string>[argc + 1];
    var iteratorParams := 0;
    ghost var args: seq<string> := [];
    if settings.Some? {
      iteratorParams := Put(argv, iteratorParams, "-lm", args);
      iteratorParams := Put(argv, iteratorParams, "", args + ["-lm"]);
      args := args + ["-lm"] + [""];
    }
    if sourcePath != "" {
      iteratorParams := Put(argv, iteratorParams, "-I", args);
      iteratorParams := Put(argv, iteratorParams, folder, args + ["-I"]);
      args := args + ["-I"] + [folder];
    }
    assert args == MachineArgs(settings) + PathArgs(sourcePath, folder);
    iteratorParams := PutOptions(argv, iteratorParams, faustOptions, argc - numberFixedParams, args);
    args := args + Words(faustOptions);
    iteratorParams := PutLibraries(argv, iteratorParams, session, args);
    args := args + LibraryArgs(session);
    if settings.Some? {
      iteratorParams := PutPolyphony(argv, iteratorParams, settings.value, args);
    }
    argv[argc] := None;
  }

  // The loop of getFactoryArgv over the options.
  method PutOptions(argv: array<Option<string>>, iteratorParams0: nat, faustOptions: string, count: nat,
                    ghost args: seq<string>) returns (iteratorParams: nat)
    requires Holds(argv, args) && iteratorParams0 == |args| && count == |Words(faustOptions)|
    requires |args| + count < argv.Length
    modifies argv
    ensures Holds(argv, args + Words(faustOptions)) && iteratorParams == |args| + count
  {
    hide Words, IsSpace;
    var copy := faustOptions;
    iteratorParams := iteratorParams0;
    ghost var done: seq<string> := [];
    var i := 0;
    while i < count
      invariant 0 <= i <= count && |done| == i && iteratorParams == |args + done|
      invariant done + Words(copy) == Words(faustOptions)
      invariant Holds(argv, args + done)
    {
      var parseResult;
      parseResult, copy := ParseCompilationParams(copy);
      iteratorParams := Put(argv, iteratorParams, parseResult, args + done);
      assert args + done + [parseResult] == args + (done + [parseResult]);
      done := done + [parseResult];
      i := i + 1;
    }
    assert done == Words(faustOptions);
  }

  method PutLibraries(argv: array<Option<string>>, iteratorParams0: nat, session: string, ghost args: seq<string>)
    returns (iteratorParams: nat)
    requires Holds(argv, args) && iteratorParams0 == |args| && |args| + 4 < argv.Length
    modifies argv
    ensures Holds(argv, args + LibraryArgs(session)) && iteratorParams == |args| + 4
  {
    var libs, examples := session + "/Libs", session + "/Examples";
    iteratorParams := Put(argv, iteratorParams0, "-I", args);
    iteratorParams := Put(argv, iteratorParams, libs, args + ["-I"]);
    iteratorParams := Put(argv, iteratorParams, "-I", args + ["-I"] + [libs]);
    iteratorParams := Put(argv, iteratorParams, examples, args + ["-I"] + [libs] + ["-I"]);
    assert args + ["-I"] + [libs] + ["-I"] + [examples] == args + LibraryArgs(session);
  }

  method PutPolyphony(argv: array<Option<string>>, iteratorParams0: nat, s: Settings, ghost args: seq<string>)
    returns (iteratorParams: nat)
    requires Holds(argv, args) && iteratorParams0 == |args| && |args| + 6 < argv.Length
    modifies argv
    ensures Holds(argv, args + PolyphonyArgs(Some(s))) && iteratorParams == |args| + 6
  {
    var poly, group := Switch(s.polyphony), Switch(s.group);
    iteratorParams := Put(argv, iteratorParams0, "-poly", args);
    iteratorParams := Put(argv, iteratorParams, poly, args + ["-poly"]);
    iteratorParams := Put(argv, iteratorParams, "-voices", args + ["-poly"] + [poly]);
    iteratorParams := Put(argv, iteratorParams, s.voices, args + ["-poly"] + [poly] + ["-voices"]);
    ghost var four := args + ["-poly"] + [poly] + ["-voices"] + [s.voices];
    iteratorParams := Put(argv, iteratorParams, "-group", four);
    iteratorParams := Put(argv, iteratorParams, group, four + ["-group"]);
    assert four + ["-group"] + [group] == args + PolyphonyArgs(Some(s));
  }
}
