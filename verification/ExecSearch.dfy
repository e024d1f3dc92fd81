/** execlp.c: building the argument vector and searching PATH. */
module ExecSearch {
  import Environ
  import opened Optional

  // ----- PATH as a list of prefixes

  /** strchr(s, ':') as an index, or |s|. */
  function FirstColon(s: string): (i: nat)
    ensures i <= |s| && (i < |s| ==> s[i] == ':') && ':' !in s[..i]
  {
    if s == [] || s[0] == ':' then 0
    else
      var i := 1 + FirstColon(s[1..]);
      assert s[..i] == [s[0]] + s[1..][..i-1];
      i
  }

  function Split(s: string): (r: seq<string>)
    ensures r != []
  {
    var i := FirstColon(s);
    if i == |s| then [s] else [s[..i]] + Split(s[i+1..])
  }

  function JoinColon(parts: seq<string>): string
    requires parts != []
  {
    if |parts| == 1 then parts[0] else parts[0] + ":" + JoinColon(parts[1..])
  }

  lemma {:induction false} JoinCons(p: string, rest: seq<string>)
    requires rest != []
    ensures JoinColon([p] + rest) == p + ":" + JoinColon(rest)
  {
  }

  lemma {:induction false} SplitCons(s: string, head: string, tail: string)
    requires FirstColon(s) < |s| && head == s[..FirstColon(s)] && tail == s[FirstColon(s) + 1..]
    requires JoinColon(Split(tail)) == tail
    ensures JoinColon(Split(s)) == s
  {
    assert Split(s) == [head] + Split(tail);
    JoinCons(head, Split(tail));
    assert s == head + ":" + tail;
  }

  lemma {:induction false} FirstColonIs(s: string, n: nat)
    requires n < |s| && s[n] == ':' && forall k :: 0 <= k < n ==> s[k] != ':'
    ensures FirstColon(s) == n
  {
  }

  /** Joining the parts with colons gives the string back... */
  lemma {:induction false} SplitThenJoin(s: string)
    ensures JoinColon(Split(s)) == s
    decreases |s|
  {
    var i := FirstColon(s);
    if i < |s| {
      var head, tail := s[..i], s[i+1..];
      SplitThenJoin(tail);
      SplitCons(s, head, tail);
    }
  }

  lemma {:induction false} SplitNoColon(s: string, j: nat)
    requires j < |Split(s)|
    ensures ':' !in Split(s)[j]
    decreases |s|
  {
    var i := FirstColon(s);
    if i == |s| {
      assert s[..i] == s;
    } else if j > 0 {
      SplitNoColon(s[i+1..], j-1);
    }
  }

  /** ...and splitting a joined list of colon-free parts gives the parts back. */
  lemma {:induction false} JoinThenSplit(parts: seq<string>)
    requires parts != [] && forall i :: 0 <= i < |parts| ==> ':' !in parts[i]
    ensures Split(JoinColon(parts)) == parts
  {
    var s := JoinColon(parts);
    var n := |parts[0]|;
    if |parts| == 1 {
      assert FirstColon(s) == |s|;
    } else {
      JoinThenSplit(parts[1..]);
      assert s[..n] == parts[0] && s[n] == ':' && s[n+1..] == JoinColon(parts[1..]);
      assert forall k :: 0 <= k < n ==> s[k] == parts[0][k];
      FirstColonIs(s, n);
    }
  }

  /** So the prefixes of PATH are the one list of colon-free strings that joins to it. */
  lemma {:induction false} SplitCharacterized(s: string, parts: seq<string>)
    ensures parts == Split(s) <==>
            parts != [] && (forall i :: 0 <= i < |parts| ==> ':' !in parts[i]) && JoinColon(parts) == s
  {
    SplitThenJoin(s);
    forall j | 0 <= j < |Split(s)| ensures ':' !in Split(s)[j] {
      SplitNoColon(s, j);
    }
    if parts != [] && forall i :: 0 <= i < |parts| ==> ':' !in parts[i] {
      JoinThenSplit(parts);
    }
  }

  /** Prefix, slash, file name; an empty prefix means the current directory. */
  function NameIn(prefix: string, file: string): string { (if prefix == "" then "." else prefix) + "/" + file }

  function NamesIn(prefixes: seq<string>, file: string): (r: seq<string>)
    ensures |r| == |prefixes| && forall i :: 0 <= i < |r| ==> r[i] == NameIn(prefixes[i], file)
  {
    seq(|prefixes|, i requires 0 <= i < |prefixes| => NameIn(prefixes[i], file))
  }

  // ----- the search

  const EACCES := 13

  /** What an execve() attempt does: replace the process (for ENOEXEC possibly through
      the shell) or fail. */
  datatype Attempt = Success | Failure(errno: int)

  datatype Result = Replaced | Failed(errno: int)

  /** Has PATH no value, or an empty one, it counts as ".". */
  function EffectivePath(path: Option<string>): string {
    if path.None? || path.value == "" then "." else path.value
  }

  /** The names to try, in order. */
  function Candidates(file: string, path: Option<string>): seq<string> {
    if '/' in file then [file] else NamesIn(Split(EffectivePath(path)), file)
  }

  /** The candidates, whatever list of colon-free prefixes PATH is: an empty prefix is the
      current directory, as is a PATH that is not set or empty, and a name with a slash is
      taken as it stands. */
  lemma {:induction false} CandidatesExact(file: string, path: Option<string>, parts: seq<string>)
    requires parts != [] && forall i :: 0 <= i < |parts| ==> ':' !in parts[i]
    ensures '/' in file ==> Candidates(file, path) == [file]
    ensures '/' !in file && (path == None || path == Some("")) ==> Candidates(file, path) == ["./" + file]
    ensures '/' !in file && path == Some(JoinColon(parts)) && JoinColon(parts) != "" ==>
              && |Candidates(file, path)| == |parts|
              && forall i :: 0 <= i < |parts| ==>
                   Candidates(file, path)[i] == if parts[i] == "" then "./" + file else parts[i] + "/" + file
  {
    SplitCharacterized(JoinColon(parts), parts);
    SplitCharacterized(".", ["."]);
    assert "." + "/" + file == "./" + file;
  }

  /** EACCES if any attempt failed with it, otherwise the last attempt's error. */
  ghost predicate ErrorRule(outcomes: seq<Attempt>, errno: int) {
    && outcomes != [] && (forall i :: 0 <= i < |outcomes| ==> outcomes[i].Failure?)
    && (Failure(EACCES) in outcomes ==> errno == EACCES)
    && (Failure(EACCES) !in outcomes ==> Failure(errno) == outcomes[|outcomes|-1])
  }

  /** A search: the names passed to execve() in order, what became of each, and the
      bytes allocated for each name that was built. */
  datatype Search = Search(tried: seq<string>, outs: seq<Attempt>, sizes: seq<nat>)

  /** The names tried are `names` in order, the outcomes are what execve() answered,
      and each name and its terminator fit the memory allocated for it. */
  ghost predicate Faithful(s: Search, names: seq<string>, exec: nat -> Attempt) {
    && s.tried <= names && |s.outs| == |s.tried| == |s.sizes|
    && (forall i :: 0 <= i < |s.outs| ==> s.outs[i] == exec(i))
    && (forall i :: 0 <= i < |s.tried| ==> |s.tried[i]| + 1 <= s.sizes[i])
  }

  /** The result against the outcomes: all attempts but a successful last one failed,
      and total failure means that every name was tried. */
  ghost predicate Concluded(s: Search, names: seq<string>, res: Result) {
    && s.outs != [] && (forall i :: 0 <= i < |s.outs| - 1 ==> s.outs[i].Failure?)
    && (res == Replaced <==> s.outs[|s.outs|-1] == Success)
    && (res.Failed? ==> s.tried == names && ErrorRule(s.outs, res.errno))
  }

  /** execlp() from the point where the vectors are built. `path` is None when PATH is not
      set, and `exec` answers the attempts in order. */
  method Exec(file: string, path: Option<string>, exec: nat -> Attempt) returns (res: Result, s: Search)
    ensures Faithful(s, Candidates(file, path), exec)
    ensures Concluded(s, Candidates(file, path), res)
  {
    if '/' in file {
      s := Search([file], [exec(0)], [|file| + 1]);
      match exec(0)
      case Success => res := Replaced;
      case Failure(e) => res := Failed(e);
    } else {
      res, s := SearchPath(file, EffectivePath(path), exec);
    }
  }

  /** The loop over the prefixes of PATH. */
  method SearchPath(file: string, PATH: string, exec: nat -> Attempt) returns (res: Result, s: Search)
    ensures Faithful(s, NamesIn(Split(PATH), file), exec)
    ensures Concluded(s, NamesIn(Split(PATH), file), res)
  {
    s := Search([], [], []);
    ghost var all := Split(PATH);
    ghost var names := NamesIn(all, file);
    var prStart, morePrefixes, fndEACCES, savedErrno := 0, true, false, 0;
    while morePrefixes
      invariant 0 <= prStart <= |PATH| && Remaining(PATH, prStart, morePrefixes, all, |s.tried|)
      invariant Faithful(s, names, exec) && SoFar(s.outs, fndEACCES, savedErrno)
      decreases morePrefixes, |PATH| - prStart
    {
      var prefix;
      prefix, prStart, morePrefixes := TakePrefix(PATH, prStart, all, |s.tried|);
      var pathname, size := BuildName(prefix, file);
      var a := exec(|s.tried|);
      Tried(s, names, exec, pathname, size, fndEACCES, savedErrno);
      s := Search(s.tried + [pathname], s.outs + [a], s.sizes + [size]);
      if a.Success? { return Replaced, s; }
      savedErrno, fndEACCES := a.errno, fndEACCES || a.errno == EACCES;
    }
    res := Failed(if fndEACCES then EACCES else savedErrno);
    AllFailed(s, names, exec, fndEACCES, savedErrno);
  }

  /** Find the end of the prefix at `prStart` and the start of the next, if any. */
  method TakePrefix(PATH: string, prStart: nat, ghost all: seq<string>, ghost k: nat)
    returns (prefix: string, next: nat, morePrefixes: bool)
    requires prStart <= |PATH| && Remaining(PATH, prStart, true, all, k)
    ensures k < |all| && prefix == all[k]
    ensures next <= |PATH| && Remaining(PATH, next, morePrefixes, all, k + 1)
    ensures morePrefixes ==> next > prStart
  {
    NextPrefix(PATH, prStart, all, k);
    var prEnd := PrefixEnd(PATH, prStart);
    prefix := PATH[prStart..prEnd];
    morePrefixes := prEnd < |PATH|;
    next := if prEnd < |PATH| then prEnd + 1 else prStart;
  }

  /** malloc(), strcat() and strncat(): the name and its terminator fit. */
  method BuildName(prefix: string, file: string) returns (name: string, size: nat)
    ensures name == if prefix == "" then "./" + file else prefix + "/" + file
    ensures name == NameIn(prefix, file) && |name| + 1 <= size
  {
    var len := |prefix|;
    size := (if len > 1 then len else 1) + |file| + 2;
    name := if len == 0 then "." else prefix;
    name := name + "/" + file;
    assert "." + "/" + file == "./" + file;
  }

  /** `k` prefixes are done and the others start at `start`. */
  ghost predicate Remaining(PATH: string, start: nat, more: bool, all: seq<string>, k: nat) {
    start <= |PATH| && k <= |all| && if more then Split(PATH[start..]) == all[k..] else 0 < k == |all|
  }

  ghost predicate SoFar(outs: seq<Attempt>, fnd: bool, last: int) {
    && (forall i :: 0 <= i < |outs| ==> outs[i].Failure?)
    && (fnd <==> Failure(EACCES) in outs)
    && (outs != [] ==> outs[|outs|-1] == Failure(last))
  }

  lemma {:induction false} AllFailed(s: Search, names: seq<string>, exec: nat -> Attempt, fnd: bool, last: int)
    requires Faithful(s, names, exec) && SoFar(s.outs, fnd, last) && 0 < |s.tried| == |names|
    ensures Concluded(s, names, Failed(if fnd then EACCES else last))
  {
  }

  lemma {:induction false} Tried(s: Search, names: seq<string>, exec: nat -> Attempt, name: string, size: nat,
                                 fnd: bool, last: int)
    requires Faithful(s, names, exec) && |s.tried| < |names| && names[|s.tried|] == name && |name| + 1 <= size
    requires SoFar(s.outs, fnd, last)
    ensures var a := exec(|s.tried|);
            var t := Search(s.tried + [name], s.outs + [a], s.sizes + [size]);
            && Faithful(t, names, exec)
            && (a.Success? ==> Concluded(t, names, Replaced))
            && (a.Failure? ==> SoFar(t.outs, fnd || a.errno == EACCES, a.errno))
  {
  }

  /** Where the prefix at `start` ends: at the next colon or at the end of PATH. */
  function PrefixEnd(PATH: string, start: nat): (end: nat)
    requires start <= |PATH|
    ensures start <= end <= |PATH|
  {
    start + FirstColon(PATH[start..])
  }

  lemma {:induction false} NextPrefix(PATH: string, start: nat, all: seq<string>, k: nat)
    requires start <= |PATH| && Remaining(PATH, start, true, all, k)
    ensures var end := PrefixEnd(PATH, start);
            && k < |all| && all[k] == PATH[start..end]
            && Remaining(PATH, if end < |PATH| then end + 1 else start, end < |PATH|, all, k + 1)
  {
    var s := PATH[start..];
    var i := FirstColon(s);
    assert all[k..][0] == all[k];
    assert s[..i] == PATH[start..start + i];
    if i < |s| {
      assert s[i + 1..] == PATH[start + i + 1..];
      assert all[k..][1..] == all[k + 1..];
    } else {
      assert s[..i] == s;
      assert |all[k..]| == 1;
    }
  }

  // ----- the argument vector

  /** The variable argument list is copied up to and including its NULL into a vector
      that grows by 100; no write is out of bounds and a slot stays free behind it. */
  method BuildArgv(args: seq<Environ.Ptr>) returns (argv: array<Environ.Ptr>, argc: nat)
    requires Environ.Null in args
    ensures argc < argv.Length && 0 < argc <= |args|
    ensures argv[..argc] == args[..argc]
    ensures args[argc-1].Null? && forall i :: 0 <= i < argc - 1 ==> args[i].Str?
  {
    ghost var n: nat :| n < |args| && args[n].Null?;
    argv := new Environ.Ptr[100](_ => Environ.Null);
    argv[0] := args[0];
    argc := 1;
    while !argv[argc-1].Null?
      invariant 0 < argc <= |args| && argc < argv.Length
      invariant argv[..argc] == args[..argc]
      invariant n >= argc - 1 && forall i :: 0 <= i < argc - 1 ==> args[i].Str?
      invariant fresh(argv)
      decreases |args| - argc
    {
      assert argv[argc-1] == args[argc-1];
      assert n >= argc;
      if argc + 1 >= argv.Length {
        var small := argv;
        var bigger := new Environ.Ptr[small.Length + 100](i requires 0 <= i reads small =>
          if i < small.Length then small[i] else Environ.Null);
        assert bigger[..argc] == small[..argc];
        argv := bigger;
      }
      argv[argc] := args[argc];
      argc := argc + 1;
      assert argv[..argc] == args[..argc];
    }
    assert argv[argc-1] == args[argc-1];
  }
}
