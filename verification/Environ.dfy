/** setenv.c: setenv() and unsetenv() on the NULL-terminated vector `environ`, which
    unsetenv() edits in place. */
module Environ {
  import opened Optional

  datatype Ptr = Null | Str(s: string)

  /** The strings before the first NULL. */
  function Contents(a: seq<Ptr>): seq<string> {
    if a == [] || a[0].Null? then [] else [a[0].s] + Contents(a[1..])
  }

  /** `a` holds `c`, then a NULL, then anything. */
  ghost predicate Holds(a: seq<Ptr>, c: seq<string>) {
    |c| < |a| && a[|c|].Null? && forall i :: 0 <= i < |c| ==> a[i] == Str(c[i])
  }

  lemma {:induction false} HoldsContents(a: seq<Ptr>)
    requires Null in a
    ensures Holds(a, Contents(a))
  {
    if a[0].Str? {
      HoldsContents(a[1..]);
    }
  }

  lemma {:induction false} ContentsUnique(a: seq<Ptr>, c: seq<string>)
    requires Holds(a, c)
    ensures Contents(a) == c && Null in a
  {
    if c != [] {
      ContentsUnique(a[1..], c[1..]);
      assert c == [c[0]] + c[1..];
    }
  }

  /** "name=..." */
  predicate Matches(e: string, name: string) { name <= e && |e| > |name| && e[|name|] == '=' }

  predicate ValidName(name: Ptr) { name.Str? && |name.s| > 0 && '=' !in name.s }

  /** The entries of other names, in order. */
  function Without(c: seq<string>, name: string): seq<string> {
    if c == [] then []
    else Without(c[..|c|-1], name) + if Matches(c[|c|-1], name) then [] else [c[|c|-1]]
  }

  /** getenv() */
  function Lookup(c: seq<string>, name: string): Option<string> {
    if c == [] then None
    else if Matches(c[0], name) then Some(c[0][|name| + 1..])
    else Lookup(c[1..], name)
  }

  // ----- about the specification

  /** "name=" and any value. */
  ghost predicate Defines(e: string, name: string) { exists v :: e == Entry(name, v) }

  lemma {:induction false} MatchesIffDefines(e: string, name: string)
    ensures Matches(e, name) <==> Defines(e, name)
    ensures Matches(e, name) ==> e == name + "=" + e[|name| + 1..]
  {
    if Matches(e, name) {
      assert e == Entry(name, e[|name| + 1..]);
    }
  }

  /** Entry `i` is the first that begins with "name=", and it holds `v`. */
  ghost predicate FirstAt(c: seq<string>, name: string, v: string, i: int) {
    0 <= i < |c| && c[i] == name + "=" + v && forall j :: 0 <= j < i ==> !Defines(c[j], name)
  }

  /** getenv() finds the value behind the first "name=", and nothing exactly if no entry
      begins with it. */
  lemma {:induction false} LookupExact(c: seq<string>, name: string, v: string)
    ensures Lookup(c, name) == Some(v) <==> exists i :: FirstAt(c, name, v, i)
    ensures Lookup(c, name) == None <==> forall i :: 0 <= i < |c| ==> !Defines(c[i], name)
  {
    if c != [] {
      LookupExact(c[1..], name, v);
      MatchesIffDefines(c[0], name);
      assert c[0] == name + "=" + v ==> c[0] == Entry(name, v) && c[0][|name| + 1..] == v;
      assert forall i :: 1 <= i < |c| ==> c[i] == c[1..][i-1];
      ShiftWitness(c, name, v);
    }
  }

  lemma {:induction false} ShiftWitness(c: seq<string>, name: string, v: string)
    requires c != []
    ensures (exists i :: FirstAt(c, name, v, i)) <==>
            FirstAt(c, name, v, 0) || (!Defines(c[0], name) && exists i :: FirstAt(c[1..], name, v, i))
  {
    if i :| FirstAt(c, name, v, i) && i > 0 {
      assert FirstAt(c[1..], name, v, i-1);
    }
    if i :| FirstAt(c[1..], name, v, i) && !Defines(c[0], name) {
      assert FirstAt(c, name, v, i+1);
    }
  }

  lemma {:induction false} WithoutConcat(c: seq<string>, d: seq<string>, name: string)
    ensures Without(c + d, name) == Without(c, name) + Without(d, name)
  {
    if d == [] {
      assert c + d == c;
    } else {
      WithoutConcat(c, d[..|d|-1], name);
      assert (c + d)[..|c + d|-1] == c + d[..|d|-1];
    }
  }

  lemma {:induction false} WithoutDrops(c: seq<string>, name: string, k: nat)
    requires k < |c| && Matches(c[k], name)
    ensures Without(c[..k] + c[k+1..], name) == Without(c, name)
  {
    assert c == c[..k] + ([c[k]] + c[k+1..]);
    WithoutConcat(c[..k], [c[k]] + c[k+1..], name);
    WithoutConcat([c[k]], c[k+1..], name);
    assert Without([c[k]], name) == Without([], name);
    WithoutConcat(c[..k], c[k+1..], name);
  }

  lemma {:induction false} WithoutKeeps(c: seq<string>, name: string)
    requires forall i :: 0 <= i < |c| ==> !Matches(c[i], name)
    ensures Without(c, name) == c
  {
    if c != [] {
      WithoutKeeps(c[..|c|-1], name);
      assert c == c[..|c|-1] + [c[|c|-1]];
    }
  }

  /** No entry of the name is left, and none of another name is lost. */
  lemma {:induction false} WithoutExact(c: seq<string>, name: string, e: string)
    ensures multiset(Without(c, name))[e] == if Matches(e, name) then 0 else multiset(c)[e]
  {
    if c != [] {
      var init, last := c[..|c|-1], c[|c|-1];
      WithoutExact(init, name, e);
      assert multiset(c) == multiset(init) + multiset{last} by { assert c == init + [last]; }
    }
  }

  /** Names without '=' are told apart even if one is a prefix of the other. */
  lemma {:induction false} NamesDisjoint(e: string, a: string, b: string)
    requires '=' !in a && '=' !in b && Matches(e, a) && Matches(e, b)
    ensures a == b
  {
  }

  lemma {:induction false} LookupConcat(c: seq<string>, d: seq<string>, name: string)
    ensures Lookup(c + d, name) == if Lookup(c, name).Some? then Lookup(c, name) else Lookup(d, name)
  {
    if c == [] {
      assert c + d == d;
    } else {
      LookupConcat(c[1..], d, name);
      assert (c + d)[1..] == c[1..] + d;
    }
  }

  /** After unsetenv() the name is gone and every other name is as before. */
  lemma {:induction false} UnsetLookup(c: seq<string>, name: string, other: string)
    requires '=' !in name && '=' !in other
    ensures Lookup(Without(c, name), other) == if other == name then None else Lookup(c, other)
  {
    if c != [] {
      var init, last := c[..|c|-1], c[|c|-1];
      UnsetLookup(init, name, other);
      assert c == init + [last];
      LookupConcat(init, [last], other);
      LookupConcat(Without(init, name), [last], other);
      assert [last][1..] == [];
      assert Without(init, name) + [] == Without(init, name);
      if Matches(last, name) && Matches(last, other) {
        NamesDisjoint(last, name, other);
      }
    }
  }

  function Entry(name: string, value: string): string { name + "=" + value }

  /** The contents after setenv(); `memory` says whether malloc() and putenv() get it. */
  function Set(c: seq<string>, name: Ptr, value: Ptr, overwrite: bool, memory: bool): seq<string> {
    if !ValidName(name) || value.Null? then c
    else if Lookup(c, name.s).Some? && !overwrite then c
    else Without(c, name.s) + if memory then [Entry(name.s, value.s)] else []
  }

  ghost function CountName(c: seq<string>, name: string): int { |c| - |Without(c, name)| }

  /** After a setenv() that sets, because it overwrites or because the name is not set:
      one entry of the name, holding the value; all other names as before; the other
      entries in their old order. */
  lemma {:induction false} SetThenGet(c: seq<string>, name: string, value: string, overwrite: bool, other: string)
    requires name != "" && '=' !in name && '=' !in other && (overwrite || Lookup(c, name).None?)
    ensures var d := Set(c, Str(name), Str(value), overwrite, true);
            && CountName(d, name) == 1
            && Lookup(d, other) == (if other == name then Some(value) else Lookup(c, other))
            && Without(d, name) == Without(c, name)
  {
    var e, rest := Entry(name, value), Without(c, name);
    assert Matches(e, name) && e[|name| + 1..] == value;
    WithoutTwice(c, name);
    WithoutConcat(rest, [e], name);
    SingleEntry(e, name, other);
    UnsetLookup(c, name, other);
    LookupConcat(rest, [e], other);
  }

  /** Without overwrite a name that is set keeps its value and everything stays as it was,
      whether or not there is memory. A call with bad arguments changes nothing either. */
  lemma {:induction false} PresentIsKept(c: seq<string>, name: Ptr, value: Ptr, overwrite: bool, memory: bool)
    ensures name.Null? || name.s == "" || '=' in name.s || value.Null? ==> Set(c, name, value, overwrite, memory) == c
    ensures name.Str? && !overwrite && (exists i :: 0 <= i < |c| && Defines(c[i], name.s)) ==>
            Set(c, name, value, overwrite, memory) == c
  {
    if name.Str? {
      LookupExact(c, name.s, "");
    }
  }

  lemma {:induction false} SingleEntry(e: string, name: string, other: string)
    requires '=' !in name && '=' !in other && Matches(e, name)
    ensures Without([e], name) == []
    ensures Lookup([e], other) == if other == name then Some(e[|name| + 1..]) else None
  {
  }

  lemma {:induction false} WithoutTwice(c: seq<string>, name: string)
    ensures Without(Without(c, name), name) == Without(c, name)
  {
    forall i | 0 <= i < |Without(c, name)| ensures !Matches(Without(c, name)[i], name) {
      var e := Without(c, name)[i];
      WithoutExact(c, name, e);
      assert e in multiset(Without(c, name));
    }
    WithoutKeeps(Without(c, name), name);
  }

  /** setenv() gets as far as needing memory. */
  predicate NeedsMemory(c: seq<string>, name: Ptr, value: Ptr, overwrite: bool) {
    ValidName(name) && value.Str? && (overwrite || Lookup(c, name.s).None?)
  }

  /** POSIX.1 wants the environment unchanged when setenv() fails. A call that runs out
      of memory has already removed the name, so that holds exactly when there was
      nothing to remove; a call without overwrite never loses anything. */
  lemma {:induction false} FailureUnchangedIff(c: seq<string>, name: Ptr, value: Ptr, overwrite: bool)
    requires NeedsMemory(c, name, value, overwrite)
    ensures Set(c, name, value, overwrite, false) == c <==> Lookup(c, name.s).None?
    ensures !overwrite ==> Set(c, name, value, overwrite, false) == c
  {
    UnsetLookup(c, name.s, name.s);
    assert Without(c, name.s) + [] == Without(c, name.s);
    if Lookup(c, name.s).None? {
      LookupNone(c, name.s);
      WithoutKeeps(c, name.s);
    }
  }

  lemma {:induction false} LookupNone(c: seq<string>, name: string)
    requires Lookup(c, name).None?
    ensures forall i :: 0 <= i < |c| ==> !Matches(c[i], name)
  {
    if c != [] {
      LookupNone(c[1..], name);
      assert forall i :: 1 <= i < |c| ==> c[i] == c[1..][i-1];
    }
  }

  /** The loss in a concrete case. */
  lemma FailureLosesVariable()
    ensures Set(["A=1"], Str("A"), Str("2"), true, false) == []
  {
  }

  // ----- the code

  datatype Status = Ok | Einval | NoMemory

  class Environment {
    var environ: array<Ptr>

    ghost predicate Valid()
      reads this, environ
    {
      Null in environ[..]
    }

    ghost function Now(): seq<string>
      reads this, environ
    {
      Contents(environ[..])
    }

    /** The inner loop: shift the entries behind `ep` back by one. */
    method ShiftDown(ep: nat, ghost c: seq<string>)
      requires Holds(environ[..], c) && ep < |c|
      modifies environ
      ensures Holds(environ[..], c[..ep] + c[ep+1..])
    {
      var sp := ep;
      while !environ[sp].Null?
        invariant ep <= sp <= |c|
        invariant forall i :: 0 <= i < ep || sp <= i < environ.Length ==> environ[i] == old(environ[i])
        invariant forall i :: ep <= i < sp ==> environ[i] == old(environ[i+1])
        decreases |c| - sp
      {
        environ[sp] := environ[sp + 1];
        sp := sp + 1;
      }
      ghost var d := c[..ep] + c[ep+1..];
      forall i | 0 <= i < |d| ensures environ[i] == Str(d[i]) {
        if i >= ep {
          assert d[i] == c[i+1];
        }
      }
    }

    method Unsetenv(name: Ptr) returns (r: Status)
      requires Valid()
      modifies environ
      ensures Valid()
      ensures r == if name.Null? || name.s == "" || '=' in name.s then Einval else Ok
      ensures Now() == if ValidName(name) then Without(old(Now()), name.s) else old(Now())
    {
      if !ValidName(name) { return Einval; }
      HoldsContents(environ[..]);
      ghost var cur := Now();
      var ep := 0;
      while !environ[ep].Null?
        invariant Holds(environ[..], cur) && ep <= |cur|
        invariant forall i :: 0 <= i < ep ==> !Matches(cur[i], name.s)
        invariant Without(cur, name.s) == Without(old(Now()), name.s)
        decreases |cur| - ep
      {
        if Matches(environ[ep].s, name.s) {
          WithoutDrops(cur, name.s, ep);
          ShiftDown(ep, cur);
          cur := cur[..ep] + cur[ep+1..];
        } else {
          ep := ep + 1;
        }
      }
      WithoutKeeps(cur, name.s);
      ContentsUnique(environ[..], cur);
      return Ok;
    }

    method Getenv(name: string) returns (v: Option<string>)
      requires Valid()
      ensures v == Lookup(Now(), name)
    {
      HoldsContents(environ[..]);
      ghost var c := Now();
      var i := 0;
      while !environ[i].Null?
        invariant 0 <= i <= |c|
        invariant Lookup(c, name) == Lookup(c[i..], name)
        decreases |c| - i
      {
        if Matches(environ[i].s, name) {
          return Some(environ[i].s[|name| + 1..]);
        }
        assert c[i..][1..] == c[i+1..];
        i := i + 1;
      }
      return None;
    }

    /** putenv() of an entry whose name is not present: a longer vector ends in it. */
    method Append(es: string)
      requires Valid()
      modifies this
      ensures Valid() && fresh(environ)
      ensures Now() == old(Now()) + [es]
    {
      HoldsContents(environ[..]);
      ghost var c := Now();
      var n := 0;
      while !environ[n].Null?
        invariant 0 <= n <= |c|
        decreases |c| - n
      {
        n := n + 1;
      }
      var src := environ;
      var bigger := new Ptr[n + 2](i requires 0 <= i < n + 2 reads src =>
        if i < n && i < src.Length then src[i] else if i == n then Str(es) else Null);
      environ := bigger;
      ContentsUnique(environ[..], c + [es]);
    }

    method Setenv(name: Ptr, value: Ptr, overwrite: bool, memory: bool) returns (r: Status)
      requires Valid()
      modifies this, environ
      ensures Valid()
      ensures Now() == Set(old(Now()), name, value, overwrite, memory)
      ensures name.Str? && !overwrite && Lookup(old(Now()), name.s).Some? ==> Now() == old(Now())
      ensures r == if name.Null? || name.s == "" || '=' in name.s || value.Null? then Einval
                   else if !memory && (overwrite || Lookup(old(Now()), name.s).None?) then NoMemory
                   else Ok
    {
      if !ValidName(name) || value.Null? { return Einval; }
      var present := Getenv(name.s);
      if present.Some? && !overwrite { return Ok; }
      var _ := Unsetenv(name);
      if !memory {
        assert Now() + [] == Now();
        return NoMemory;
      }
      Append(Entry(name.s, value.s));
      return Ok;
    }
  }
}
