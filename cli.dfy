/// The command-line entry point of libraw.py: the argument check, the output
/// path derived from the input path with POSIX `os.path` semantics, and the
/// four forwarded operations open, unpack, process, write.
module Cli {
  import opened Utf8
  import opened Native
  import opened Forwarder

  /** `s.rfind(c)`: the last position of `c` in `s`, or -1. */
  function RFind(s: string, c: char): (r: int)
    ensures -1 <= r < |s|
    ensures r >= 0 ==> s[r] == c
    ensures forall k :: r < k < |s| ==> s[k] != c
  {
    if s == [] then -1
    else if s[|s| - 1] == c then |s| - 1
    else RFind(s[..|s| - 1], c)
  }

  /** The last occurrence is the one with no other occurrence after it. */
  lemma RFindAt(s: string, c: char, i: nat)
    requires i < |s| && s[i] == c
    requires forall k :: i < k < |s| ==> s[k] != c
    ensures RFind(s, c) == i
  {
  }

  predicate AllSlashes(s: string) {
    forall k :: 0 <= k < |s| ==> s[k] == '/'
  }

  /** `s.rstrip('/')`: `s` without its trailing slashes. */
  function RStripSlashes(s: string): (r: string)
    ensures |r| <= |s| && r == s[..|r|] && AllSlashes(s[|r|..])
    ensures r == [] || r[|r| - 1] != '/'
  {
    if s != [] && s[|s| - 1] == '/' then
      var r := RStripSlashes(s[..|s| - 1]);
      assert s[|r|..] == s[..|s| - 1][|r|..] + ['/'];
      r
    else s
  }

  /** `os.path.basename(p)`: what follows the last slash. */
  function BaseName(p: string): (r: string)
    ensures '/' !in r && |r| <= |p| && p[|p| - |r|..] == r
    ensures |r| < |p| ==> p[|p| - |r| - 1] == '/'
  {
    p[RFind(p, '/') + 1..]
  }

  /**
   * `os.path.dirname(p)`: everything up to the last slash, with trailing
   * slashes removed unless it consists of slashes only.
   */
  function DirName(p: string): (r: string)
    ensures |r| + |BaseName(p)| <= |p| && p[..|r|] == r
    ensures AllSlashes(p[|r|..|p| - |BaseName(p)|])
    ensures r == [] <==> '/' !in p
    ensures r != [] && AllSlashes(r) ==> |r| + |BaseName(p)| == |p|
    ensures r == [] || AllSlashes(r) || r[|r| - 1] != '/'
  {
    var head := p[..RFind(p, '/') + 1];
    assert head == p[..|p| - |BaseName(p)|] && head[0..] == head;
    if head != [] && !AllSlashes(head) then RStripSlashes(head) else head
  }

  /** `f.rsplit('.', 1)[0]`: the part before the last dot, or all of `f` if it has none. */
  function Stem(f: string): (r: string)
    ensures '.' !in f ==> r == f
    ensures '.' in f ==> |r| < |f| && f[..|r|] == r && f[|r|] == '.' && '.' !in f[|r| + 1..]
  {
    var i := RFind(f, '.');
    if i < 0 then f else f[..i]
  }

  /**
   * The output path as libraw.py builds it: `pname + "/" + fname + ".ppm"`.
   * The file name is right; the directory is the input's only when that has
   * a part other than slashes, and gains a slash otherwise.
   */
  function OutputPathAsWritten(arg: string): (r: string)
    ensures BaseName(r) == Stem(BaseName(arg)) + ".ppm"
    ensures DirName(r) == if DirName(arg) != [] && !AllSlashes(DirName(arg)) then DirName(arg) else DirName(arg) + "/"
  {
    OutputNameHasNoSlash(arg);
    SlashConcat(DirName(arg), Stem(BaseName(arg)));
    DirName(arg) + "/" + Stem(BaseName(arg)) + ".ppm"
  }

  /** `os.path.join(a, b)`. */
  function Join(a: string, b: string): (r: string)
    ensures |b| > 0 && b[0] == '/' ==> r == b
    ensures !(|b| > 0 && b[0] == '/') ==> |b| <= |r| && r[|r| - |b|..] == b
    ensures !(|b| > 0 && b[0] == '/') && (a == [] || a[|a| - 1] == '/') ==> r == a + b
    ensures !(|b| > 0 && b[0] == '/') && a != [] && a[|a| - 1] != '/' ==> r == a + "/" + b
  {
    if |b| > 0 && b[0] == '/' then b
    else if a == [] || a[|a| - 1] == '/' then a + b
    else a + "/" + b
  }

  /** The output path: the input's directory joined with its stem and `.ppm`. */
  function OutputPath(arg: string): string {
    Join(DirName(arg), Stem(BaseName(arg)) + ".ppm")
  }

  lemma {:induction false} RFindAfter(x: string, n: string, c: char)
    requires c !in n
    ensures RFind(x + n, c) == RFind(x, c)
    decreases |n|
  {
    if n != [] {
      assert (x + n)[..|x + n| - 1] == x + n[..|n| - 1];
      RFindAfter(x, n[..|n| - 1], c);
    } else {
      assert x + n == x;
    }
  }

  /** Appending a slash-free name to a directory prefix: its base name is the name. */
  lemma BaseNameAfter(x: string, n: string)
    requires x == [] || x[|x| - 1] == '/'
    requires '/' !in n
    ensures BaseName(x + n) == n
    ensures DirName(x + n) == if x != [] && !AllSlashes(x) then RStripSlashes(x) else x
  {
    RFindAfter(x, n, '/');
    assert (x + n)[..|x|] == x && (x + n)[|x|..] == n;
  }

  /** Trailing slashes are stripped back to a prefix that has none. */
  lemma StripSlashAgain(d: string)
    requires d != [] && d[|d| - 1] != '/'
    ensures RStripSlashes(d + "/") == d
  {
    assert (d + "/")[..|d + "/"| - 1] == d;
  }

  /** The name part of the output: the stem of the input's base name, then `.ppm`. */
  lemma OutputNameHasNoSlash(arg: string)
    ensures '/' !in Stem(BaseName(arg)) + ".ppm"
  {
    var b := BaseName(arg);
    var st := Stem(b);
    assert st == b[..|st|];
    forall k | 0 <= k < |st| ensures st[k] != '/' {
      assert st[k] == b[k];
    }
  }

  /** A directory name, a slash and a slash-free stem with `.ppm`, as libraw.py concatenates them. */
  lemma SlashConcat(d: string, st: string)
    requires d == [] || AllSlashes(d) || d[|d| - 1] != '/'
    requires '/' !in st + ".ppm"
    ensures BaseName(d + "/" + st + ".ppm") == st + ".ppm"
    ensures DirName(d + "/" + st + ".ppm") == if d != [] && !AllSlashes(d) then d else d + "/"
  {
    var n := st + ".ppm";
    assert d + "/" + st + ".ppm" == (d + "/") + n;
    BaseNameAfter(d + "/", n);
    if d != [] && !AllSlashes(d) {
      assert (d + "/")[|d| - 1] != '/';
      StripSlashAgain(d);
    } else {
      assert AllSlashes(d + "/");
    }
  }

  /** The output lands beside the input, named after the input's stem. */
  lemma OutputBesideInput(arg: string)
    ensures DirName(OutputPath(arg)) == DirName(arg)
    ensures BaseName(OutputPath(arg)) == Stem(BaseName(arg)) + ".ppm"
  {
    var d := DirName(arg);
    var n := Stem(BaseName(arg)) + ".ppm";
    OutputNameHasNoSlash(arg);
    assert OutputPath(arg) == Join(d, n);
    JoinBeside(d, n);
  }

  /** Joining a slash-free name onto a directory name keeps that directory. */
  lemma JoinBeside(d: string, n: string)
    requires d == [] || AllSlashes(d) || d[|d| - 1] != '/'
    requires '/' !in n && n != []
    ensures DirName(Join(d, n)) == d && BaseName(Join(d, n)) == n
  {
    if d == [] {
      BaseNameAfter([], n);
      assert [] + n == n;
    } else if d[|d| - 1] == '/' {
      BaseNameAfter(d, n);
    } else {
      assert (d + "/")[|d| - 1] == d[|d| - 1] != '/';
      assert d + "/" + n == (d + "/") + n;
      BaseNameAfter(d + "/", n);
      StripSlashAgain(d);
    }
  }

  /** Where the input has a directory part other than the root, the two paths agree. */
  lemma AsWrittenAgrees(arg: string)
    requires DirName(arg) != [] && !AllSlashes(DirName(arg))
    ensures OutputPathAsWritten(arg) == OutputPath(arg)
  {
    var d := DirName(arg);
    var n := Stem(BaseName(arg)) + ".ppm";
    OutputNameHasNoSlash(arg);
    assert n[0] != '/' by { assert n[0] in n; }
    assert d[|d| - 1] != '/';
    assert Join(d, n) == d + "/" + n;
    assert d + "/" + Stem(BaseName(arg)) + ".ppm" == d + "/" + n;
  }

  /** A path without a slash is its own base name, in the empty directory. */
  lemma BareName(n: string)
    requires '/' !in n
    ensures BaseName(n) == n && DirName(n) == []
  {
    BaseNameAfter([], n);
    assert [] + n == n;
  }

  lemma SlashBefore(s: string, t: string)
    ensures "/" + s + t == "/" + (s + t)
  {
  }

  /**
   * For an input without a slash, the path as written puts the output in the
   * root directory, while the joined path keeps it in the working directory.
   */
  lemma BareNameOutputs(arg: string)
    requires '/' !in arg
    ensures OutputPathAsWritten(arg) == "/" + Stem(arg) + ".ppm"
    ensures DirName(OutputPathAsWritten(arg)) == "/"
    ensures OutputPath(arg) == Stem(arg) + ".ppm"
  {
    BareName(arg);
    var n := Stem(arg) + ".ppm";
    OutputNameHasNoSlash(arg);
    assert DirName(arg) + "/" == "/";
    SlashBefore(Stem(arg), ".ppm");
    assert Join([], n) == n by { assert [] + n == n; }
  }

  lemma PhotoStem(arg: string)
    requires arg == "photo.raw"
    ensures '/' !in arg && Stem(arg) == "photo"
  {
    RFindAt(arg, '.', 5);
  }

  lemma PhotoNames(st: string)
    requires st == "photo"
    ensures "/" + st + ".ppm" == "/photo.ppm" && st + ".ppm" == "photo.ppm"
  {
  }

  /** A bare file name in the working directory is sent to the filesystem root. */
  lemma RelativeInputWritesToRoot(arg: string)
    requires arg == "photo.raw"
    ensures OutputPathAsWritten(arg) == "/photo.ppm"
    ensures DirName(OutputPathAsWritten(arg)) != DirName(arg)
    ensures OutputPath(arg) == "photo.ppm"
  {
    PhotoStem(arg);
    BareName(arg);
    BareNameOutputs(arg);
    PhotoNames(Stem(arg));
  }

  /** How the script ends. */
  datatype CliOutcome =
    | Usage                  // fewer than two arguments: usage message, status 1
    | Raised(error: Error)   // an uncaught exception: status 1
    | Written(output: string)

  function ExitStatus(o: CliOutcome): (status: int)
    ensures status == 0 <==> o.Written?
  {
    if o.Written? then 0 else 1
  }

  /** The operations the script forwards to read `input` and write `output`, in order. */
  function Script(input: string, output: string): (ops: seq<(string, seq<Arg>)>)
    ensures |ops| == 4
    ensures ops[0].1 == [Text(input)] && ops[1].1 == [] && ops[2].1 == [] && ops[3].1 == [Text(output)]
  {
    [("open_file", [Text(input)]), ("unpack", []), ("dcraw_process", []),
     ("dcraw_ppm_tiff_writer", [Text(output)])]
  }

  /**
   * Forwarding `ops` one after another on an instance with context `proc`,
   * stopping at the first exception: the new attributes, the native calls
   * made, and the outcome.
   */
  function Perform(lib: Library, proc: Address, a: Attributes, ops: seq<(string, seq<Arg>)>)
    : (r: (Attributes, seq<NativeCall>, Result<()>))
    requires CacheSound(lib, a.cache)
    ensures CacheSound(lib, r.0.cache) && |r.1| <= |ops|
    decreases |ops|
  {
    if ops == [] then (a, [], Ok(()))
    else
      var (a1, found) := GetAttr(lib, a, ops[0].0);
      if found.Err? then (a1, [], Err(found.error))
      else
        var (call, res) := Invoke(lib, proc, found.value, ops[0].1);
        if res.Err? then (a1, [call], res)
        else
          var (a2, calls, res2) := Perform(lib, proc, a1, ops[1..]);
          (a2, [call] + calls, res2)
  }

  /** The call `Forward` makes for operation `op` on context `proc`. */
  function CallFor(proc: Address, op: (string, seq<Arg>)): (c: NativeCall)
    ensures c.symbol == Symbol(op.0) && c.args == [Pointer(proc)] + EncodeArgs(op.1)
  {
    NativeCall(Symbol(op.0), [Pointer(proc)] + EncodeArgs(op.1))
  }

  /** The call reached an exported function, and that function returned 0. */
  predicate Succeeded(lib: Library, c: NativeCall) {
    c.symbol in lib.symbols && lib.symbols[c.symbol](c.args) == 0
  }

  /** The i-th call is the i-th operation's, and it reached an exported function. */
  ghost predicate CallsMatch(lib: Library, proc: Address, ops: seq<(string, seq<Arg>)>, calls: seq<NativeCall>) {
    && |calls| <= |ops|
    && forall i :: 0 <= i < |calls| ==> calls[i] == CallFor(proc, ops[i]) && calls[i].symbol in lib.symbols
  }

  ghost predicate AllSucceeded(lib: Library, calls: seq<NativeCall>) {
    forall i :: 0 <= i < |calls| ==> Succeeded(lib, calls[i])
  }

  ghost predicate AllButLastSucceeded(lib: Library, calls: seq<NativeCall>) {
    forall i :: 0 <= i < |calls| - 1 ==> Succeeded(lib, calls[i])
  }

  /** Why a run that failed stopped: the next symbol was missing, or the last call returned an error code. */
  ghost predicate Stopped(lib: Library, ops: seq<(string, seq<Arg>)>, calls: seq<NativeCall>, res: Result<()>) {
    res.Err? ==>
      || (|calls| < |ops| && Symbol(ops[|calls|].0) !in lib.symbols && res.error == AttributeError(Symbol(ops[|calls|].0)))
      || (|calls| > 0 && !Succeeded(lib, calls[|calls| - 1]))
  }

  /**
   * `calls` and `res` are what running `ops` can produce: the i-th call is
   * the i-th operation's; every call but the last succeeded; the outcome is
   * success exactly when all operations ran and succeeded, and otherwise
   * the next operation's symbol was missing or the last call returned an
   * error code.
   */
  ghost predicate Traced(lib: Library, proc: Address, ops: seq<(string, seq<Arg>)>, calls: seq<NativeCall>, res: Result<()>) {
    && CallsMatch(lib, proc, ops, calls)
    && AllButLastSucceeded(lib, calls)
    && (res.Ok? <==> |calls| == |ops| && AllSucceeded(lib, calls))
    && Stopped(lib, ops, calls, res)
  }

  lemma CallsMatchCons(lib: Library, proc: Address, ops: seq<(string, seq<Arg>)>, calls: seq<NativeCall>)
    requires ops != [] && CallFor(proc, ops[0]).symbol in lib.symbols
    requires CallsMatch(lib, proc, ops[1..], calls)
    ensures CallsMatch(lib, proc, ops, [CallFor(proc, ops[0])] + calls)
  {
    var t := [CallFor(proc, ops[0])] + calls;
    forall i | 1 <= i < |t| ensures t[i] == CallFor(proc, ops[i]) {
      assert t[i] == calls[i - 1] && ops[i] == ops[1..][i - 1];
    }
  }

  lemma SucceededCons(lib: Library, c: NativeCall, calls: seq<NativeCall>)
    requires Succeeded(lib, c)
    ensures AllSucceeded(lib, [c] + calls) == AllSucceeded(lib, calls)
    ensures AllButLastSucceeded(lib, calls) ==> AllButLastSucceeded(lib, [c] + calls)
  {
    var t := [c] + calls;
    assert forall i :: 1 <= i < |t| ==> t[i] == calls[i - 1];
    if AllSucceeded(lib, t) {
      forall i | 0 <= i < |calls| ensures Succeeded(lib, calls[i]) {
        assert calls[i] == t[i + 1];
      }
    }
  }

  lemma StoppedCons(lib: Library, ops: seq<(string, seq<Arg>)>, c: NativeCall, calls: seq<NativeCall>, res: Result<()>)
    requires ops != [] && |calls| <= |ops| - 1
    requires Stopped(lib, ops[1..], calls, res)
    ensures Stopped(lib, ops, [c] + calls, res)
  {
    var t := [c] + calls;
    assert |calls| < |ops| - 1 ==> ops[|t|] == ops[1..][|calls|];
    assert |calls| > 0 ==> t[|t| - 1] == calls[|calls| - 1];
  }

  /** A successful first call in front of a traced rest is a traced run. */
  lemma PerformStep(lib: Library, proc: Address, ops: seq<(string, seq<Arg>)>,
                    calls: seq<NativeCall>, res: Result<()>)
    requires ops != [] && Succeeded(lib, CallFor(proc, ops[0]))
    requires Traced(lib, proc, ops[1..], calls, res)
    ensures Traced(lib, proc, ops, [CallFor(proc, ops[0])] + calls, res)
  {
    CallsMatchCons(lib, proc, ops, calls);
    SucceededCons(lib, CallFor(proc, ops[0]), calls);
    StoppedCons(lib, ops, CallFor(proc, ops[0]), calls, res);
  }

  /** Every run of `Perform` is traced by its calls and outcome. */
  lemma {:induction false} PerformTrace(lib: Library, proc: Address, a: Attributes, ops: seq<(string, seq<Arg>)>)
    requires CacheSound(lib, a.cache)
    ensures Traced(lib, proc, ops, Perform(lib, proc, a, ops).1, Perform(lib, proc, a, ops).2)
    decreases |ops|
  {
    if ops != [] {
      var (a1, found) := GetAttr(lib, a, ops[0].0);
      if found.Ok? {
        var (call, res) := Invoke(lib, proc, found.value, ops[0].1);
        assert call == CallFor(proc, ops[0]);
        assert res.Ok? == Succeeded(lib, call);
        if res.Ok? {
          PerformTrace(lib, proc, a1, ops[1..]);
          var rest := Perform(lib, proc, a1, ops[1..]);
          PerformStep(lib, proc, ops, rest.1, rest.2);
        }
      }
    }
  }

  /**
   * `total` is what a whole run produces, given that it has reached
   * attributes `a` with calls `done` made and operations `rest` to go.
   */
  ghost predicate Remaining(lib: Library, proc: Address, total: (Attributes, seq<NativeCall>, Result<()>),
                            a: Attributes, done: seq<NativeCall>, rest: seq<(string, seq<Arg>)>)
  {
    CacheSound(lib, a.cache) &&
    var r := Perform(lib, proc, a, rest);
    total == (r.0, done + r.1, r.2)
  }

  /** What forwarding the next operation leaves of the run still to go. */
  lemma Advance(lib: Library, proc: Address, total: (Attributes, seq<NativeCall>, Result<()>),
                a: Attributes, done: seq<NativeCall>, rest: seq<(string, seq<Arg>)>,
                a': Attributes, done': seq<NativeCall>, r: Result<()>)
    requires rest != [] && Remaining(lib, proc, total, a, done, rest)
    requires var (a1, found) := GetAttr(lib, a, rest[0].0);
      && a' == a1
      && (found.Err? ==> r == Err(found.error) && done' == done)
      && (found.Ok? ==> r == Invoke(lib, proc, found.value, rest[0].1).1
                        && done' == done + [Invoke(lib, proc, found.value, rest[0].1).0])
    ensures r.Ok? ==> Remaining(lib, proc, total, a', done', rest[1..])
    ensures r.Err? ==> total == (a', done', r)
  {
    var found := GetAttr(lib, a, rest[0].0).1;
    if found.Ok? {
      var call := Invoke(lib, proc, found.value, rest[0].1).0;
      if r.Ok? {
        var after := Perform(lib, proc, a', rest[1..]);
        assert Perform(lib, proc, a, rest) == (after.0, [call] + after.1, after.2);
        assert done + ([call] + after.1) == done' + after.1;
      } else {
        assert Perform(lib, proc, a, rest) == (a', [call], r);
      }
    } else {
      assert Perform(lib, proc, a, rest) == (a', [], r);
      assert done + [] == done';
    }
  }

  /** One line of the script: forward the next operation; stop the run if it raised. */
  method Step(session: LibRaw, name: string, args: seq<Arg>,
              ghost total: (Attributes, seq<NativeCall>, Result<()>), ghost rest: seq<(string, seq<Arg>)>)
    returns (r: Result<()>)
    requires session.Valid() && rest != [] && rest[0] == (name, args)
    requires Remaining(session.lib, session.proc, total, Attributes(session.cache, session.lookups), session.calls, rest)
    modifies session`cache, session`lookups, session`calls
    ensures session.Valid()
    ensures r.Ok? ==>
      Remaining(session.lib, session.proc, total, Attributes(session.cache, session.lookups), session.calls, rest[1..])
    ensures r.Err? ==> total == (Attributes(session.cache, session.lookups), session.calls, r)
  {
    ghost var done := session.calls;
    ghost var before := Attributes(session.cache, session.lookups);
    r := session.Forward(name, args);
    Advance(session.lib, session.proc, total, before, done, rest,
            Attributes(session.cache, session.lookups), session.calls, r);
  }

  /** Before the first operation, the whole run is still to go. */
  lemma RemainingFromStart(lib: Library, proc: Address, ops: seq<(string, seq<Arg>)>)
    ensures Remaining(lib, proc, Perform(lib, proc, Fresh, ops), Fresh, [], ops)
  {
    var r := Perform(lib, proc, Fresh, ops);
    assert [] + r.1 == r.1;
  }

  /** Once no operation is left, the run is over and it succeeded. */
  lemma Finished(lib: Library, proc: Address, total: (Attributes, seq<NativeCall>, Result<()>),
                 a: Attributes, done: seq<NativeCall>)
    requires Remaining(lib, proc, total, a, done, [])
    ensures total == (a, done, Ok(()))
  {
    assert done + [] == done;
  }

  /**
   * The four lines of the script that drive a new instance: open the input,
   * unpack, process, write the output; the first one that raises ends the run.
   */
  method Process(session: LibRaw, input: string, output: string) returns (r: Result<()>)
    requires session.Valid() && Attributes(session.cache, session.lookups) == Fresh && session.calls == []
    modifies session`cache, session`lookups, session`calls
    ensures session.Valid()
    ensures (Attributes(session.cache, session.lookups), session.calls, r)
         == Perform(session.lib, session.proc, Fresh, Script(input, output))
  {
    ghost var ops := Script(input, output);
    ghost var total := Perform(session.lib, session.proc, Fresh, ops);
    RemainingFromStart(session.lib, session.proc, ops);
    r := Step(session, "open_file", [Text(input)], total, ops);
    if r.Err? {
      return;
    }
    r := Step(session, "unpack", [], total, ops[1..]);
    if r.Err? {
      return;
    }
    r := Step(session, "dcraw_process", [], total, ops[2..]);
    if r.Err? {
      return;
    }
    r := Step(session, "dcraw_ppm_tiff_writer", [Text(output)], total, ops[3..]);
    if r.Err? {
      return;
    }
    assert ops[3..][1..] == [];
    Finished(session.lib, session.proc, total, Attributes(session.cache, session.lookups), session.calls);
    assert r.value == ();
    assert r == Ok(());
  }

  /**
   * `python libraw.py <rawfile>`: the usage exit, then the instance, then
   * open, unpack, process and write, any of which may raise.
   */
  method RunCli(lib: Library, argv: seq<string>) returns (outcome: CliOutcome, ghost trace: seq<NativeCall>)
    requires |argv| >= 1
    ensures |argv| < 2 ==> outcome == Usage && trace == []
    ensures |argv| >= 2 && lib.init(0) == 0 ==> outcome == Raised(NullPointerAccess) && trace == []
    ensures |argv| >= 2 && lib.init(0) != 0 ==>
      var (_, calls, res) := Perform(lib, lib.init(0), Fresh, Script(argv[1], OutputPathAsWritten(argv[1])));
      && trace == calls
      && outcome == if res.Ok? then Written(OutputPathAsWritten(argv[1])) else Raised(res.error)
  {
    if |argv| < 2 {
      return Usage, [];
    }
    var warned, made := LibRaw.New(lib, 0);
    if made.Err? {
      return Raised(made.error), [];
    }
    var proc := made.value;
    var input := argv[1];
    var output := OutputPathAsWritten(input);
    var r := Process(proc, input, output);
    if r.Err? {
      return Raised(r.error), proc.calls;
    }
    return Written(output), proc.calls;
  }

  /**
   * Where the input has a directory part other than slashes, the script as
   * written makes the same calls, with the same outcome, as one that joins
   * the output path with `os.path.join`.
   */
  lemma ScriptsAgree(lib: Library, proc: Address, input: string)
    requires DirName(input) != [] && !AllSlashes(DirName(input))
    ensures Perform(lib, proc, Fresh, Script(input, OutputPathAsWritten(input)))
         == Perform(lib, proc, Fresh, Script(input, OutputPath(input)))
  {
    AsWrittenAgrees(input);
  }

  /** When every operation exists and returns 0, all of them run, in order, and the run succeeds. */
  lemma AllSucceed(lib: Library, proc: Address, a: Attributes, ops: seq<(string, seq<Arg>)>)
    requires CacheSound(lib, a.cache)
    requires forall k :: 0 <= k < |ops| ==> Succeeded(lib, CallFor(proc, ops[k]))
    ensures Perform(lib, proc, a, ops).2.Ok?
    ensures Perform(lib, proc, a, ops).1 == seq(|ops|, k requires 0 <= k < |ops| => CallFor(proc, ops[k]))
  {
    PerformTrace(lib, proc, a, ops);
    var r := Perform(lib, proc, a, ops);
    assert forall k :: 0 <= k < |ops| ==> Symbol(ops[k].0) in lib.symbols;
    assert forall i :: 0 <= i < |r.1| ==> Succeeded(lib, r.1[i]);
  }

  lemma EncodeArgs1(args: seq<Arg>)
    requires |args| <= 1
    ensures EncodeArgs(args) == if args == [] then [] else [if args[0].Text? then Bytes(Encode(args[0].text)) else args[0]]
  {
  }

  /** The native calls the four lines of the script make when they run. */
  lemma ScriptCalls(proc: Address, input: string, output: string)
    ensures CallFor(proc, Script(input, output)[0]) == NativeCall(Symbol("open_file"), [Pointer(proc), Bytes(Encode(input))])
    ensures CallFor(proc, Script(input, output)[1]) == NativeCall(Symbol("unpack"), [Pointer(proc)])
    ensures CallFor(proc, Script(input, output)[2]) == NativeCall(Symbol("dcraw_process"), [Pointer(proc)])
    ensures CallFor(proc, Script(input, output)[3])
         == NativeCall(Symbol("dcraw_ppm_tiff_writer"), [Pointer(proc), Bytes(Encode(output))])
  {
    EncodeArgs1([Text(input)]);
    EncodeArgs1([]);
    EncodeArgs1([Text(output)]);
  }

  /**
   * When the library exports the four operations and each returns 0, the
   * script makes exactly these native calls, each with the context first.
   */
  lemma EndToEnd(lib: Library, proc: Address, input: string, output: string)
    requires Symbol("open_file") in lib.symbols
    requires lib.symbols[Symbol("open_file")]([Pointer(proc), Bytes(Encode(input))]) == 0
    requires Symbol("unpack") in lib.symbols
    requires lib.symbols[Symbol("unpack")]([Pointer(proc)]) == 0
    requires Symbol("dcraw_process") in lib.symbols
    requires lib.symbols[Symbol("dcraw_process")]([Pointer(proc)]) == 0
    requires Symbol("dcraw_ppm_tiff_writer") in lib.symbols
    requires lib.symbols[Symbol("dcraw_ppm_tiff_writer")]([Pointer(proc), Bytes(Encode(output))]) == 0
    ensures Perform(lib, proc, Fresh, Script(input, output)).2.Ok?
    ensures Perform(lib, proc, Fresh, Script(input, output)).1 == [
      NativeCall(Symbol("open_file"), [Pointer(proc), Bytes(Encode(input))]),
      NativeCall(Symbol("unpack"), [Pointer(proc)]),
      NativeCall(Symbol("dcraw_process"), [Pointer(proc)]),
      NativeCall(Symbol("dcraw_ppm_tiff_writer"), [Pointer(proc), Bytes(Encode(output))])]
  {
    var ops := Script(input, output);
    var expected := [
      NativeCall(Symbol("open_file"), [Pointer(proc), Bytes(Encode(input))]),
      NativeCall(Symbol("unpack"), [Pointer(proc)]),
      NativeCall(Symbol("dcraw_process"), [Pointer(proc)]),
      NativeCall(Symbol("dcraw_ppm_tiff_writer"), [Pointer(proc), Bytes(Encode(output))])];
    ScriptCalls(proc, input, output);
    assert forall k :: 0 <= k < 4 ==> CallFor(proc, ops[k]) == expected[k];
    AllSucceed(lib, proc, Fresh, ops);
  }
}
