/** Finding the Terraform files of a directory (tf_scanner.py). The walk of
    the directory tree and `stat()` are inputs: the walk is the sequence of
    files in the order `os.walk` visits them, and `stat` gives each file's
    size and modification time. */
module TfScanner {

  import opened Wrappers
  import opened Strings

  /** `Path(root) / file`: the directory walked into and the file's name. */
  datatype FilePath = FilePath(root: string, name: string)

  /** The two fields of `os.stat_result` the handlers read. */
  datatype Stat = Stat(size: int, modifiedTime: real)

  /** The scanner's own record: path, size and modification time. */
  datatype FileInfo = FileInfo(path: FilePath, size: int, modifiedTime: real)

  // ---------------------------------------------------------------------
  // Path.suffix
  // ---------------------------------------------------------------------

  /** `Path.suffix`: from the last `.` of the name to its end, when that dot
      is neither the name's first nor its last character; otherwise empty. */
  function Suffix(name: string): (ext: string)
    ensures ext == [] || (|ext| >= 2 && ext[0] == '.' && '.' !in ext[1..] && |ext| < |name| && EndsWith(name, ext))
  {
    var i := RFind(name, '.');
    if 0 < i < |name| - 1 then
      assert name[|name| - |name[i..]|..] == name[i..];
      name[i..]
    else []
  }

  /** A name made of a non-empty stem, a dot and a non-empty, dot-free
      extension has that dot and extension as its suffix. */
  lemma {:induction false} SuffixOfName(stem: string, ext: string)
    requires stem != [] && ext != [] && '.' !in ext
    ensures Suffix(stem + "." + ext) == "." + ext
  {
    var name := stem + "." + ext;
    var i := RFind(name, '.');
    assert name[|stem|] == '.';
    assert name[|stem| + 1..] == ext;
    assert forall j :: i < j < |name| ==> name[j] != '.' by {
      forall j | i < j < |name| ensures name[j] != '.' {
        assert name[j] == name[i + 1..][j - i - 1];
      }
    }
    assert forall j :: |stem| < j < |name| ==> name[j] != '.' by {
      forall j | |stem| < j < |name| ensures name[j] != '.' {
        assert name[j] == ext[j - |stem| - 1];
      }
    }
    assert name[i..] == "." + ext;
  }

  /** A name without a dot has no suffix. */
  lemma DotlessNameHasNoSuffix(name: string)
    requires '.' !in name
    ensures Suffix(name) == []
  {
  }

  /** A name whose only dot leads it (`.terraformrc`) or ends it (`main.`)
      has no suffix either. */
  lemma EdgeDotIsNoSuffix(name: string)
    requires |name| >= 1
    requires (name[0] == '.' && '.' !in name[1..]) || (name[|name| - 1] == '.')
    ensures Suffix(name) == []
  {
    var i := RFind(name, '.');
    if name[|name| - 1] != '.' {
      assert forall j :: 0 < j < |name| ==> name[j] == name[1..][j - 1];
    }
  }

  // ---------------------------------------------------------------------
  // Handlers
  // ---------------------------------------------------------------------

  datatype Handler = TerraformFileHandler | TerraformVarsFileHandler

  /** `can_handle`: an exact comparison of the suffix with `.tf` or `.tfvars`. */
  predicate CanHandle(h: Handler, p: FilePath)
  {
    match h
    case TerraformFileHandler => Suffix(p.name) == ".tf"
    case TerraformVarsFileHandler => Suffix(p.name) == ".tfvars"
  }

  /** `process`: both handlers record the path with what `stat` reports. */
  function Process(h: Handler, p: FilePath, stat: FilePath -> Stat): (info: FileInfo)
    ensures info.path == p
    ensures info.size == stat(p).size && info.modifiedTime == stat(p).modifiedTime
  {
    FileInfo(p, stat(p).size, stat(p).modifiedTime)
  }

  /** A name a handler accepts ends with its extension after a non-empty
      stem. */
  lemma HandledName(h: Handler, p: FilePath)
    requires CanHandle(h, p)
    ensures h.TerraformFileHandler? ==> |p.name| > 3 && EndsWith(p.name, ".tf")
    ensures h.TerraformVarsFileHandler? ==> |p.name| > 7 && EndsWith(p.name, ".tfvars")
  {
  }

  /** No path is accepted by both handlers. */
  lemma HandlersDisjoint(p: FilePath)
    ensures !(CanHandle(TerraformFileHandler, p) && CanHandle(TerraformVarsFileHandler, p))
  {
    if CanHandle(TerraformFileHandler, p) {
      assert Suffix(p.name)[|Suffix(p.name)| - 1] == 'f';
    }
  }

  /** The files of the handler tests: `main.tf` and `vars.tfvars` are
      accepted by their handlers, `readme.md` is not a Terraform file. */
  lemma HandlerExamples(root: string)
    ensures CanHandle(TerraformFileHandler, FilePath(root, "main.tf"))
    ensures CanHandle(TerraformVarsFileHandler, FilePath(root, "vars.tfvars"))
    ensures !CanHandle(TerraformFileHandler, FilePath(root, "readme.md"))
  {
    MainSuffix();
    VarsSuffix();
    ReadmeSuffix();
  }

  /** `main.tf` has suffix `.tf`. */
  lemma MainSuffix()
    ensures Suffix("main.tf") == ".tf"
  {
    NamedSuffix("main.tf", "main", "tf");
  }

  /** `vars.tfvars` has suffix `.tfvars`. */
  lemma VarsSuffix()
    ensures Suffix("vars.tfvars") == ".tfvars"
  {
    NamedSuffix("vars.tfvars", "vars", "tfvars");
  }

  /** `readme.md` has suffix `.md`, which differs from `.tf`. */
  lemma ReadmeSuffix()
    ensures Suffix("readme.md") != ".tf"
  {
    NamedSuffix("readme.md", "readme", "md");
    assert ".md"[1] != ".tf"[1];
  }

  /** The suffix of a name spelled out as stem, dot and extension. */
  lemma NamedSuffix(name: string, stem: string, ext: string)
    requires stem != [] && ext != [] && '.' !in ext
    requires name == stem + "." + ext
    ensures Suffix(name) == "." + ext
  {
    SuffixOfName(stem, ext);
  }

  // ---------------------------------------------------------------------
  // The scan
  // ---------------------------------------------------------------------

  /** The position of the first handler at or after `k` that accepts `p`,
      or `|handlers|` when none does. */
  function FirstAcceptingFrom(handlers: seq<Handler>, p: FilePath, k: nat): (i: nat)
    requires k <= |handlers|
    ensures k <= i <= |handlers|
    ensures forall j :: k <= j < i ==> !CanHandle(handlers[j], p)
    ensures i < |handlers| ==> CanHandle(handlers[i], p)
    decreases |handlers| - k
  {
    if k == |handlers| || CanHandle(handlers[k], p) then k
    else FirstAcceptingFrom(handlers, p, k + 1)
  }

  /** The first handler, in list order, that accepts `p`. */
  function FirstAccepting(handlers: seq<Handler>, p: FilePath): (r: Option<Handler>)
    ensures r.None? <==> forall k :: 0 <= k < |handlers| ==> !CanHandle(handlers[k], p)
    ensures r.Some? ==> exists k :: 0 <= k < |handlers| && handlers[k] == r.value && CanHandle(r.value, p)
                                    && forall j :: 0 <= j < k ==> !CanHandle(handlers[j], p)
  {
    var i := FirstAcceptingFrom(handlers, p, 0);
    if i < |handlers| then Some(handlers[i]) else None
  }

  /** The handler at `k` is the first accepting one when it accepts and no
      earlier one does. */
  lemma FirstAcceptingIs(handlers: seq<Handler>, p: FilePath, k: nat)
    requires k < |handlers| && CanHandle(handlers[k], p)
    requires forall j :: 0 <= j < k ==> !CanHandle(handlers[j], p)
    ensures FirstAccepting(handlers, p) == Some(handlers[k])
  {
    var i := FirstAcceptingFrom(handlers, p, 0);
    assert i == k;
  }

  /** What one file contributes: one record from its first accepting handler,
      or nothing. */
  function Contribution(handlers: seq<Handler>, p: FilePath, stat: FilePath -> Stat): (infos: seq<FileInfo>)
    ensures |infos| <= 1
    ensures |infos| == 1 <==> FirstAccepting(handlers, p).Some?
    ensures |infos| == 1 ==> infos[0].path == p
  {
    match FirstAccepting(handlers, p)
    case None => []
    case Some(h) => [Process(h, p, stat)]
  }

  /** The results of scanning the files of `walk`, in walk order. */
  function Scan(handlers: seq<Handler>, walk: seq<FilePath>, stat: FilePath -> Stat): (results: seq<FileInfo>)
    ensures |results| <= |walk|
    decreases |walk|
  {
    if walk == [] then []
    else Scan(handlers, walk[..|walk| - 1], stat) + Contribution(handlers, walk[|walk| - 1], stat)
  }

  /** The files of `walk` that some handler accepts, in walk order. */
  function Accepted(handlers: seq<Handler>, walk: seq<FilePath>): (ps: seq<FilePath>)
    ensures forall p :: p in ps <==> p in walk && FirstAccepting(handlers, p).Some?
    decreases |walk|
  {
    if walk == [] then []
    else
      var p := walk[|walk| - 1];
      var init := Accepted(handlers, walk[..|walk| - 1]);
      LastSplit(walk);
      if FirstAccepting(handlers, p).Some? then init + [p] else init
  }

  /** A non-empty walk is its files but the last, then the last. */
  lemma LastSplit(walk: seq<FilePath>)
    requires walk != []
    ensures walk == walk[..|walk| - 1] + [walk[|walk| - 1]]
  {
  }

  class FileScanner {
    const handlers: seq<Handler>

    constructor (handlers: seq<Handler>)
      ensures this.handlers == handlers
    {
      this.handlers := handlers;
    }

    /** `scan_directory`: every file of the walk, tried against the handlers
        in order until one accepts it. */
    method ScanDirectory(walk: seq<FilePath>, stat: FilePath -> Stat) returns (results: seq<FileInfo>)
      ensures results == Scan(handlers, walk, stat)
    {
      results := [];
      for i := 0 to |walk|
        invariant results == Scan(handlers, walk[..i], stat)
      {
        assert walk[..i + 1][..i] == walk[..i];
        assert Scan(handlers, walk[..i + 1], stat) == results + Contribution(handlers, walk[i], stat);
        var filePath := walk[i];
        var k := 0;
        while k < |handlers|
          invariant 0 <= k <= |handlers|
          invariant forall j :: 0 <= j < k ==> !CanHandle(handlers[j], filePath)
          invariant results == Scan(handlers, walk[..i], stat)
        {
          if CanHandle(handlers[k], filePath) {
            FirstAcceptingIs(handlers, filePath, k);
            results := results + [Process(handlers[k], filePath, stat)];
            break;
          }
          k := k + 1;
        }
      }
      assert walk[..|walk|] == walk;
    }
  }

  /** The handlers `main` installs, in its order. */
  const DefaultHandlers: seq<Handler> := [TerraformFileHandler, TerraformVarsFileHandler]

  // ---------------------------------------------------------------------
  // Properties of the scan
  // ---------------------------------------------------------------------

  /** Scanning two stretches of the walk one after the other gives the two
      result lists one after the other: each file contributes on its own, in
      walk order. */
  lemma {:induction false} ScanAppend(handlers: seq<Handler>, w1: seq<FilePath>, w2: seq<FilePath>, stat: FilePath -> Stat)
    ensures Scan(handlers, w1 + w2, stat) == Scan(handlers, w1, stat) + Scan(handlers, w2, stat)
    decreases |w2|
  {
    if w2 != [] {
      var w2init := w2[..|w2| - 1];
      assert (w1 + w2)[..|w1 + w2| - 1] == w1 + w2init;
      assert (w1 + w2)[|w1 + w2| - 1] == w2[|w2| - 1];
      ScanAppend(handlers, w1, w2init, stat);
    } else {
      assert w1 + w2 == w1;
    }
  }

  /** The results are, in order, one record for each accepted file of the
      walk, carrying that file's path and `stat` values. */
  lemma {:induction false} ScanRecordsAcceptedFiles(handlers: seq<Handler>, walk: seq<FilePath>, stat: FilePath -> Stat)
    ensures |Scan(handlers, walk, stat)| == |Accepted(handlers, walk)|
    ensures forall k :: 0 <= k < |Scan(handlers, walk, stat)| ==>
              var info := Scan(handlers, walk, stat)[k];
              var p := Accepted(handlers, walk)[k];
              info.path == p && info.size == stat(p).size && info.modifiedTime == stat(p).modifiedTime
    decreases |walk|
  {
    if walk != [] {
      ScanRecordsAcceptedFiles(handlers, walk[..|walk| - 1], stat);
    }
  }

  /** With the handlers of `main`, a file is accepted exactly when its
      suffix is `.tf` or `.tfvars`. */
  lemma DefaultHandlersAccept(p: FilePath)
    ensures FirstAccepting(DefaultHandlers, p).Some? <==> Suffix(p.name) == ".tf" || Suffix(p.name) == ".tfvars"
    ensures Suffix(p.name) == ".tf" ==> FirstAccepting(DefaultHandlers, p) == Some(TerraformFileHandler)
    ensures Suffix(p.name) == ".tfvars" ==> FirstAccepting(DefaultHandlers, p) == Some(TerraformVarsFileHandler)
  {
    HandlersDisjoint(p);
  }

  /** The scanner test: a directory holding only `main.tf` scans to one record
      for that file. */
  lemma SingleTerraformFile(root: string, stat: FilePath -> Stat)
    ensures |Scan(DefaultHandlers, [FilePath(root, "main.tf")], stat)| == 1
    ensures Scan(DefaultHandlers, [FilePath(root, "main.tf")], stat)[0].path == FilePath(root, "main.tf")
  {
    HandlerExamples(root);
    var walk := [FilePath(root, "main.tf")];
    assert walk[..0] == [];
  }
}
