// The bitcode cache of src/MainStructure/FLSessionManager.cpp: a file of the session folder holds
// the bitcode of an earlier compilation, under a name that is meant to determine the compilation.
module BitcodeCache {
  import opened Options
  import opened OptionWords
  import opened Decimal
  import opened FactoryArgv

  // The versions of the compiler and of its back end, and the machine target.
  datatype Compiler = Compiler(libfaust: string, llvm: string, target: string)

  // What createFactory compiles: the name and the text of the program, its file and the folder of that
  // file if it comes from one, the text of the options, the level, and the compiler that is installed
  // when it is called.
  datatype Request = Request(name: string, program: string, path: string, folder: string, options: string,
                             optLevel: int, compiler: Compiler)

  // The session folder, and the functions of other libraries: the expansion of a named program under an
  // argument vector, which may fail, the key of the expanded code, a hash in hexadecimal, and the
  // compilation of a program under an argument vector, which may fail.
  datatype Library<!B> = Library(session: string, expand: (string, string, seq<string>) -> Option<string>,
                                 sha: string -> string, hash: string -> string,
                                 compile: (string, seq<string>, int, Compiler) -> Option<B>)

  // The argument vector of a request; the settings of the window are not in it for a local compilation.
  function ArgsOf<B>(lib: Library<B>, r: Request): seq<string> {
    Arguments(r.path, r.folder, r.options, lib.session, None)
  }

  // The label of a part of the key text
  function Label(name: string): string { " " + (Named(name) + " ") }

  function Named(name: string): string { name + ":" }

  // The key text of bitcodeCachePath
  function KeyText(shaKey: string, options: string, optLevel: int, compiler: Compiler): string {
    shaKey + (Label("options") + (Simplified(options) + (Label("opt") + (IntText(optLevel)
    + (Label("libfaust") + (compiler.libfaust + (Label("llvm") + (compiler.llvm
    + (Label("target") + compiler.target)))))))))
  }

  const SUFFIX := "_bitcode_process.bc"

  // A file of the session: its folder, and its name in the folder
  type File = (string, string)

  // The folder of the key, and the name of bitcodeCachePath with the suffix of the file
  function CacheFile<B>(lib: Library<B>, code: string, r: Request): File {
    (lib.sha(code),
     lib.sha(code) + "-" + lib.hash(KeyText(lib.sha(code), r.options, r.optLevel, r.compiler)) + SUFFIX)
  }

  // What a fresh compilation of the request gives
  function Fresh<B>(lib: Library<B>, r: Request): Option<B> {
    if lib.expand(r.name, r.program, ArgsOf(lib, r)).None? then None
    else lib.compile(r.program, ArgsOf(lib, r), r.optLevel, r.compiler)
  }

  // ---- the key text determines what it is made of ----

  function KeyWords(shaKey: string, words: seq<string>, optLevel: int, compiler: Compiler): seq<string> {
    [shaKey] + ([Named("options")] + (words + LevelWords(optLevel, compiler)))
  }

  function LevelWords(optLevel: int, c: Compiler): seq<string> {
    [Named("opt"), IntText(optLevel)]
    + ([Named("libfaust"), c.libfaust] + ([Named("llvm"), c.llvm] + [Named("target"), c.target]))
  }

  ghost predicate WordVersions(c: Compiler) {
    IsWord(c.libfaust) && IsWord(c.llvm) && IsWord(c.target)
  }

  lemma LabelWords(name: string, s: string)
    requires IsWord(name)
    ensures Words(Label(name) + s) == [Named(name)] + Words(s)
  {
    hide Words;
    var word := Named(name);
    assert Label(name) + s == " " + (word + (" " + s));
    WordsAfterBlank(" ", word + (" " + s));
    assert IsSpace((" " + s)[0]);
    WordsAfterWord(word, " " + s);
    WordsAfterBlank(" ", s);
  }

  lemma LabelledWords(name: string, word: string, s: string)
    requires IsWord(name) && IsWord(word) && (s != "" ==> IsSpace(s[0]))
    ensures Words(Label(name) + (word + s)) == [Named(name), word] + Words(s)
  {
    hide Words;
    LabelWords(name, word + s);
    WordsAfterWord(word, s);
  }

  lemma LabelStart(name: string, s: string)
    ensures IsSpace((Label(name) + s)[0])
  {
  }

  lemma NumberIsWord(n: int)
    ensures IsWord(IntText(n)) && Words("") == []
  {
    hide IntText;
  }

  lemma NamesAreWords()
    ensures IsWord("opt") && IsWord("libfaust") && IsWord("llvm") && IsWord("target")
  {
  }

  lemma LevelWordsOf(optLevel: int, c: Compiler)
    requires WordVersions(c)
    ensures Words(Label("opt") + (IntText(optLevel) + (Label("libfaust") + (c.libfaust + (Label("llvm") + (c.llvm
      + (Label("target") + c.target))))))) == LevelWords(optLevel, c)
  {
    hide Words, IntText, Named, Label, IsWord;
    NumberIsWord(optLevel);
    NamesAreWords();
    var t := Label("target") + c.target;
    assert Words(t) == [Named("target"), c.target] by {
      assert c.target + "" == c.target;
      LabelledWords("target", c.target, "");
    }
    var v := Label("llvm") + (c.llvm + t);
    LabelStart("target", c.target);
    LabelledWords("llvm", c.llvm, t);
    var f := Label("libfaust") + (c.libfaust + v);
    LabelStart("llvm", c.llvm + t);
    LabelledWords("libfaust", c.libfaust, v);
    LabelStart("libfaust", c.libfaust + v);
    LabelledWords("opt", IntText(optLevel), f);
  }

  lemma WordsOfKeyText(shaKey: string, options: string, optLevel: int, c: Compiler)
    requires IsWord(shaKey) && WordVersions(c)
    ensures Words(KeyText(shaKey, options, optLevel, c)) == KeyWords(shaKey, Words(options), optLevel, c)
  {
    hide Words, IntText, LevelWords, Simplified, Named;
    var t := Label("opt") + (IntText(optLevel) + (Label("libfaust") + (c.libfaust + (Label("llvm") + (c.llvm
      + (Label("target") + c.target))))));
    LevelWordsOf(optLevel, c);
    var o := Simplified(options);
    LabelStart("opt", IntText(optLevel) + (Label("libfaust") + (c.libfaust + (Label("llvm") + (c.llvm
      + (Label("target") + c.target))))));
    assert Apart(o, t);
    WordsConcat(o, t);
    SimplifiedKeepsWords(options, options);
    LabelWords("options", o + t);
    WordsAfterWord(shaKey, Label("options") + (o + t));
  }

  // The key text determines the key of the code, the words of the options, the level and the
  // compiler: nothing that an option holds can be taken for a label.
  lemma KeyTextInjective(k1: string, o1: string, l1: int, c1: Compiler, k2: string, o2: string, l2: int, c2: Compiler)
    requires IsWord(k1) && WordVersions(c1) && IsWord(k2) && WordVersions(c2)
    ensures KeyText(k1, o1, l1, c1) == KeyText(k2, o2, l2, c2) <==>
      k1 == k2 && Words(o1) == Words(o2) && l1 == l2 && c1 == c2
  {
    hide Words, IntText, Simplified, KeyText;
    WordsOfKeyText(k1, o1, l1, c1);
    WordsOfKeyText(k2, o2, l2, c2);
    if KeyText(k1, o1, l1, c1) == KeyText(k2, o2, l2, c2) {
      SameKeyWords(k1, Words(o1), l1, c1, k2, Words(o2), l2, c2);
    }
    if k1 == k2 && Words(o1) == Words(o2) && l1 == l2 && c1 == c2 {
      SimplifiedKeepsWords(o1, o2);
      SameKeyText(k1, o1, o2, l1, c1);
    }
  }

  lemma SameKeyText(k: string, o1: string, o2: string, level: int, c: Compiler)
    requires Simplified(o1) == Simplified(o2)
    ensures KeyText(k, o1, level, c) == KeyText(k, o2, level, c)
  {
  }

  lemma SameKeyWords(k1: string, w1: seq<string>, l1: int, c1: Compiler,
                     k2: string, w2: seq<string>, l2: int, c2: Compiler)
    requires KeyWords(k1, w1, l1, c1) == KeyWords(k2, w2, l2, c2)
    ensures k1 == k2 && w1 == w2 && l1 == l2 && c1 == c2
  {
    hide IntText;
    var a, b := KeyWords(k1, w1, l1, c1), KeyWords(k2, w2, l2, c2);
    assert |a| == 10 + |w1| && |b| == 10 + |w2|;
    assert a[0] == k1 && b[0] == k2;
    assert a[2..][..|w1|] == w1 && b[2..][..|w2|] == w2;
    assert a[2 + |w1|..] == LevelWords(l1, c1) && b[2 + |w2|..] == LevelWords(l2, c2);
    assert LevelWords(l1, c1)[1] == IntText(l1) && LevelWords(l2, c2)[1] == IntText(l2);
    assert LevelWords(l1, c1)[3] == c1.libfaust && LevelWords(l2, c2)[3] == c2.libfaust;
    assert LevelWords(l1, c1)[5] == c1.llvm && LevelWords(l2, c2)[5] == c2.llvm;
    assert LevelWords(l1, c1)[7] == c1.target && LevelWords(l2, c2)[7] == c2.target;
    IntTextInjective(l1, l2);
  }

  // ---- the name of the file determines the compilation ----

  // The code that a request expands to
  function Code<B>(lib: Library<B>, r: Request): Option<string> {
    lib.expand(r.name, r.program, ArgsOf(lib, r))
  }

  function KeyOf<B>(lib: Library<B>, r: Request): string
    requires Code(lib, r).Some?
  {
    KeyText(lib.sha(Code(lib, r).value), r.options, r.optLevel, r.compiler)
  }

  // Keys and versions are words, hashes have 40 digits, and there is no collision among these requests.
  ghost predicate Hashes<B(!new)>(lib: Library<B>, requests: iset<Request>) {
    && (forall r <- requests | Code(lib, r).Some? ::
          && IsWord(lib.sha(Code(lib, r).value)) && WordVersions(r.compiler)
          && |lib.hash(KeyOf(lib, r))| == 40)
    && (forall r <- requests, q <- requests | Code(lib, r).Some? && Code(lib, q).Some? ::
          && (lib.sha(Code(lib, r).value) == lib.sha(Code(lib, q).value) ==> Code(lib, r) == Code(lib, q))
          && (lib.hash(KeyOf(lib, r)) == lib.hash(KeyOf(lib, q)) ==> KeyOf(lib, r) == KeyOf(lib, q)))
  }

  // Two requests share a file exactly when they agree on the expanded code, the words of the options, the
  // level and the compiler.
  lemma SameFile<B(!new)>(lib: Library<B>, requests: iset<Request>, r: Request, q: Request)
    requires Hashes(lib, requests) && r in requests && q in requests
    requires Code(lib, r).Some? && Code(lib, q).Some?
    ensures CacheFile(lib, Code(lib, r).value, r) == CacheFile(lib, Code(lib, q).value, q) <==> SameKey(lib, r, q)
  {
    hide Words, KeyText, IsWord;
    var f, g := CacheFile(lib, Code(lib, r).value, r), CacheFile(lib, Code(lib, q).value, q);
    KeyTextInjective(lib.sha(Code(lib, r).value), r.options, r.optLevel, r.compiler,
                     lib.sha(Code(lib, q).value), q.options, q.optLevel, q.compiler);
    if f == g {
      HashOfFile(lib, r);
      HashOfFile(lib, q);
    }
  }

  lemma HashOfFile<B>(lib: Library<B>, r: Request)
    requires Code(lib, r).Some? && |lib.hash(KeyOf(lib, r))| == 40
    ensures var f := CacheFile(lib, Code(lib, r).value, r).1;
            |f| >= 40 + |SUFFIX| && f[|f| - 40 - |SUFFIX|..|f| - |SUFFIX|] == lib.hash(KeyOf(lib, r))
  {
    hide KeyText;
    var f := CacheFile(lib, Code(lib, r).value, r).1;
    var before := lib.sha(Code(lib, r).value) + "-";
    assert f == before + lib.hash(KeyOf(lib, r)) + SUFFIX;
    assert f[|before|..|before| + 40] == lib.hash(KeyOf(lib, r));
  }

  ghost predicate SameKey<B>(lib: Library<B>, r: Request, q: Request) {
    && Code(lib, r) == Code(lib, q) && Words(r.options) == Words(q.options)
    && r.optLevel == q.optLevel && r.compiler == q.compiler
  }

  // The name, the program and the folder act on a compilation through the expanded code alone.
  ghost predicate CodeDecides<B(!new)>(lib: Library<B>, requests: iset<Request>) {
    forall r <- requests, q <- requests | Code(lib, r).Some? && SameKey(lib, r, q) :: Fresh(lib, r) == Fresh(lib, q)
  }

  // ---- the cache over time ----

  // The compilation of a request that has the key of r
  ghost predicate OfKey<B(!new)>(lib: Library<B>, requests: iset<Request>, r: Request, b: B) {
    exists q :: q in requests && SameKey(lib, r, q) && Fresh(lib, q) == Some(b)
  }

  // A cached file holds a compilation of the key of every request that has its name.
  ghost predicate Coherent<B(!new)>(lib: Library<B>, requests: iset<Request>, disk: map<File, B>) {
    forall r <- requests | Code(lib, r).Some? && CacheFile(lib, Code(lib, r).value, r) in disk ::
      OfKey(lib, requests, r, disk[CacheFile(lib, Code(lib, r).value, r)])
  }

  lemma StoreKeepsCoherence<B(!new)>(lib: Library<B>, requests: iset<Request>, disk: map<File, B>, r: Request, b: B)
    requires Hashes(lib, requests) && Coherent(lib, requests, disk)
    requires r in requests && Code(lib, r).Some? && Fresh(lib, r) == Some(b)
    ensures Coherent(lib, requests, disk[CacheFile(lib, Code(lib, r).value, r) := b])
  {
    hide Words, KeyText, IsWord, Hashes, CacheFile;
    var name := CacheFile(lib, Code(lib, r).value, r);
    forall q <- requests | Code(lib, q).Some? && CacheFile(lib, Code(lib, q).value, q) in disk[name := b]
      ensures OfKey(lib, requests, q, disk[name := b][CacheFile(lib, Code(lib, q).value, q)])
    {
      SameFile(lib, requests, r, q);
    }
  }

  // What is read for a request is its own compilation.
  ghost predicate ReadsFresh<B(!new)>(lib: Library<B>, requests: iset<Request>, disk: map<File, B>) {
    forall r <- requests | Code(lib, r).Some? && CacheFile(lib, Code(lib, r).value, r) in disk ::
      Fresh(lib, r) == Some(disk[CacheFile(lib, Code(lib, r).value, r)])
  }

  // The folder of the program and its name are no part of the key. Exactly: all that is read is fresh,
  // whatever was stored before, if and only if the expanded code decides the compilation.
  lemma ReadsFreshExactly<B(!new)>(lib: Library<B>, requests: iset<Request>)
    requires Hashes(lib, requests)
    ensures CodeDecides(lib, requests) <==>
      forall disk: map<File, B> :: Coherent(lib, requests, disk) ==> ReadsFresh(lib, requests, disk)
  {
    hide Words, KeyText, IsWord, Hashes, CacheFile, Fresh;
    if !CodeDecides(lib, requests) {
      var r, q :| r in requests && q in requests && Code(lib, r).Some? && SameKey(lib, r, q)
                  && Fresh(lib, r) != Fresh(lib, q);
      SameFile(lib, requests, r, q);
      var one := if Fresh(lib, r).Some? then r else q;
      var name := CacheFile(lib, Code(lib, one).value, one);
      StoreKeepsCoherence(lib, requests, map[], one, Fresh(lib, one).value);
      assert !ReadsFresh(lib, requests, map[][name := Fresh(lib, one).value]);
    }
  }

  const MAX_SHA_FOLDERS := 100

  // A folder of the cache with its time, and the list of them that the file system sorts by time, the
  // newest first
  datatype Folder = Folder(name: string, time: int)

  type Folders = fs: seq<Folder> | forall i, j :: 0 <= i < j < |fs| ==> fs[i].time >= fs[j].time witness []

  // Beyond the limit the last folder of the list goes.
  function Cleaned<B>(disk: map<File, B>, folders: Folders): map<File, B> {
    if |folders| > MAX_SHA_FOLDERS then
      map f: File | f in disk && f.0 != folders[|folders| - 1].name :: disk[f]
    else disk
  }

  // All files of one folder are gone, and no others.
  ghost predicate Without<B(!new)>(before: map<File, B>, name: string, after: map<File, B>) {
    && (forall f: File :: f in after <==> f in before && f.0 != name)
    && (forall f: File :: f in after ==> after[f] == before[f])
  }

  lemma CleanedOldest<B(!new)>(disk: map<File, B>, folders: Folders)
    ensures |folders| <= 100 ==> Cleaned(disk, folders) == disk
    ensures |folders| > 100 ==>
      && Cleaned(disk, folders) == (map f: File | f in disk && f.0 != folders[|folders| - 1].name :: disk[f])
      && exists oldest :: oldest in folders && (forall g :: g in folders ==> oldest.time <= g.time)
           && Without(disk, oldest.name, Cleaned(disk, folders))
  {
    if |folders| > 100 {
      var oldest := folders[|folders| - 1];
      assert oldest in folders;
      forall g | g in folders ensures oldest.time <= g.time {
        var i :| 0 <= i < |folders| && folders[i] == g;
      }
      assert Without(disk, oldest.name, Cleaned(disk, folders));
    }
  }

  // The answers of the file system: the folders by time, whether a file can be read, and whether one can
  // be written.
  datatype Chance = Chance(folders: Folders, readable: bool, writable: bool)

  // The key text, part by part
  lemma KeyTextParts(shaKey: string, options: string, optLevel: int, c: Compiler)
    ensures KeyText(shaKey, options, optLevel, c)
      == shaKey + (" options: " + (Simplified(options) + (" opt: " + (IntText(optLevel)
         + (" libfaust: " + (c.libfaust + (" llvm: " + (c.llvm + (" target: " + c.target)))))))))
  {
    hide Simplified, IntText;
    LabelTexts();
  }

  lemma LabelTexts()
    ensures Label("options") == " options: " && Label("opt") == " opt: " && Label("libfaust") == " libfaust: "
    ensures Label("llvm") == " llvm: " && Label("target") == " target: "
  {
    assert Named("options") == "options:" && Named("opt") == "opt:" && Named("libfaust") == "libfaust:";
    assert Named("llvm") == "llvm:" && Named("target") == "target:";
  }

  // What createFactory leaves: the program is expanded under the folder of the source, the words of the
  // options and the folders of the session; a file of the right name that can be read is the factory, and
  // otherwise the program is compiled under the same arguments, and the factory is written if possible.
  ghost predicate Makes<B>(lib: Library<B>, r: Request, chance: Chance, before: map<File, B>,
                           after: map<File, B>, factory: Option<B>) {
    var argv := (if r.path != "" then ["-I", r.folder] else []) + Words(r.options)
      + ["-I", lib.session + "/Libs", "-I", lib.session + "/Examples"];
    match lib.expand(r.name, r.program, argv)
    case None => factory == None && after == before
    case Some(code) =>
      var shaKey := lib.sha(code);
      var hash := lib.hash(KeyText(shaKey, r.options, r.optLevel, r.compiler));
      var file := (shaKey, shaKey + "-" + hash + "_bitcode_process.bc");
      if file in before && chance.readable then factory == Some(before[file]) && after == before
      else
        && factory == lib.compile(r.program, argv, r.optLevel, r.compiler)
        && after == if factory.Some? && chance.writable then before[file := factory.value] else before
  }

  // The bitcode files of the session folder
  class Cache<!B(!new)> {
    var disk: map<File, B>

    constructor (ghost lib: Library<B>, ghost requests: iset<Request>)
      ensures disk == map[] && Coherent(lib, requests, disk)
    {
      disk := map[];
    }

    // Beyond 100 folders all files of the oldest one go, and no other.
    method CleanSHAFolder(folders: Folders)
      modifies this
      ensures disk == Cleaned(old(disk), folders)
      ensures |folders| <= 100 ==> disk == old(disk)
      ensures |folders| > 100 ==>
        exists oldest :: oldest in folders && (forall g :: g in folders ==> oldest.time <= g.time)
          && Without(old(disk), oldest.name, disk)
    {
      hide Cleaned;
      CleanedOldest(disk, folders);
      if |folders| > MAX_SHA_FOLDERS {
        for i := 0 to |folders|
          invariant i < |folders| ==> disk == old(disk)
          invariant i == |folders| ==> disk == Cleaned(old(disk), folders)
        {
          if i == |folders| - 1 {
            disk := map f: File | f in disk && f.0 != folders[i].name :: disk[f];
          }
        }
      }
    }

    // createFactory for a local window: whatever is cleaned, unreadable or unwritable, the factory is a
    // compilation of the key of the request, and the one that a fresh compilation gives when the expanded
    // code decides; and the folder stays coherent.
    method CreateFactory(lib: Library<B>, ghost requests: iset<Request>, r: Request, chance: Chance)
      returns (factory: Option<B>)
      requires Hashes(lib, requests) && r in requests
      requires Coherent(lib, requests, disk)
      modifies this
      ensures if factory.Some? then OfKey(lib, requests, r, factory.value) else Fresh(lib, r).None?
      ensures CodeDecides(lib, requests) ==> factory == Fresh(lib, r)
      ensures Coherent(lib, requests, disk)
      ensures Makes(lib, r, chance, Cleaned(old(disk), chance.folders), disk, factory)
    {
      hide Words, KeyText, IsWord, Hashes, CacheFile, Makes, Arguments, Cleaned;
      CleanSHAFolder(chance.folders);
      ghost var before := disk;
      var argc, argv := GetFactoryArgv(r.path, r.folder, r.options, lib.session, None);
      var args := seq(argc,
        i requires 0 <= i < argc && argv.Length == argc + 1 && argv[i].Some? reads argv => argv[i].value);
      assert args == ArgsOf(lib, r);
      var expanded := lib.expand(r.name, r.program, args);
      if expanded.None? {
        MakesAs(lib, r, chance, before, disk, None);
        return None;
      }
      var irFile := CacheFile(lib, expanded.value, r);
      factory := None;
      if irFile in disk {
        if chance.readable {
          factory := Some(disk[irFile]);
        }
      }
      if factory.None? {
        factory := lib.compile(r.program, args, r.optLevel, r.compiler);
        if factory.Some? {
          if chance.writable {
            StoreKeepsCoherence(lib, requests, disk, r, factory.value);
            disk := disk[irFile := factory.value];
          }
        }
      }
      MakesAs(lib, r, chance, before, disk, factory);
    }
  }

  lemma MakesAs<B>(lib: Library<B>, r: Request, chance: Chance, before: map<File, B>,
                   after: map<File, B>, factory: Option<B>)
    requires
      match Code(lib, r)
      case None => factory == None && after == before
      case Some(code) =>
        var file := CacheFile(lib, code, r);
        if file in before && chance.readable then factory == Some(before[file]) && after == before
        else
          && factory == lib.compile(r.program, ArgsOf(lib, r), r.optLevel, r.compiler)
          && after == if factory.Some? && chance.writable then before[file := factory.value] else before
    ensures Makes(lib, r, chance, before, after, factory)
  {
    hide Words, KeyText;
    var argv := (if r.path != "" then ["-I", r.folder] else []) + Words(r.options)
      + ["-I", lib.session + "/Libs", "-I", lib.session + "/Examples"];
    assert ArgsOf(lib, r) == argv;
  }
}
