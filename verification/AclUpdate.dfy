/** updateACL() of acl_update.c: an ordered list of edits applied to the entry list of
    a file, with the mask recalculated, the list checked and the file written after
    every single edit. The entry semantics are those of the POSIX.1e draft. */
module AclUpdate {

  datatype Tag = UserObj | User | GroupObj | Group | Mask | Other
  datatype Perms = Perms(r: bool, w: bool, x: bool)
  datatype Entry = Entry(tag: Tag, qual: int, perms: Perms)
  datatype Operation = Modify | Remove
  datatype Key = Key(tag: Tag, qual: int)

  /** Only named users and groups have a qualifier. */
  function KeyOf(tag: Tag, qual: int): Key { Key(tag, if tag.User? || tag.Group? then qual else 0) }
  function K(e: Entry): Key { KeyOf(e.tag, e.qual) }

  const MASK := Key(Mask, 0)

  // ----- the list operations

  /** findEntry(): the index of the first entry with this tag and qualifier, or -1. */
  function Find(acl: seq<Entry>, k: Key): (r: int)
    ensures -1 <= r < |acl|
    ensures r >= 0 ==> K(acl[r]) == k
    ensures r == -1 ==> forall i :: 0 <= i < |acl| ==> K(acl[i]) != k
  {
    if acl == [] then -1
    else if K(acl[0]) == k then 0
    else
      var r := Find(acl[1..], k);
      assert forall i :: 1 <= i < |acl| ==> acl[i] == acl[1..][i-1];
      if r == -1 then -1 else r + 1
  }

  /** Set the permissions of an entry, creating it if it is not there. */
  function Put(acl: seq<Entry>, k: Key, p: Perms): seq<Entry> {
    var i := Find(acl, k);
    if i >= 0 then acl[i := acl[i].(perms := p)] else acl + [Entry(k.tag, k.qual, p)]
  }

  function Delete(acl: seq<Entry>, k: Key): seq<Entry> {
    var i := Find(acl, k);
    if i >= 0 then acl[..i] + acl[i+1..] else acl
  }

  function Edit(acl: seq<Entry>, op: Operation, e: Entry): seq<Entry> {
    match op case Modify => Put(acl, K(e), e.perms) case Remove => Delete(acl, K(e))
  }

  /** Entries the mask limits. */
  predicate Masked(k: Key) { k.tag.User? || k.tag.GroupObj? || k.tag.Group? }

  function Union(a: Perms, b: Perms): Perms { Perms(a.r || b.r, a.w || b.w, a.x || b.x) }

  const NONE := Perms(false, false, false)

  function MaskPerms(acl: seq<Entry>): Perms {
    if acl == [] then NONE
    else Union(MaskPerms(acl[..|acl|-1]), if Masked(K(acl[|acl|-1])) then acl[|acl|-1].perms else NONE)
  }

  /** acl_calc_mask() */
  function CalcMask(acl: seq<Entry>): seq<Entry> { Put(acl, MASK, MaskPerms(acl)) }

  function EditStep(acl: seq<Entry>, op: Operation, e: Entry, recalc: bool): seq<Entry> {
    if recalc then CalcMask(Edit(acl, op, e)) else Edit(acl, op, e)
  }

  // ----- the abstract view

  ghost predicate Unique(acl: seq<Entry>) {
    forall i, j :: 0 <= i < |acl| && 0 <= j < |acl| && i != j ==> K(acl[i]) != K(acl[j])
  }

  ghost function AsMap(acl: seq<Entry>): map<Key, Perms>
    requires Unique(acl)
  {
    map i | 0 <= i < |acl| :: K(acl[i]) := acl[i].perms
  }

  /** acl_valid(): the three base entries, no key twice, and a mask if there are named
      users or groups. */
  ghost predicate KeysOk(keys: set<Key>) {
    && Key(UserObj, 0) in keys && Key(GroupObj, 0) in keys && Key(Other, 0) in keys
    && ((exists k :: k in keys && (k.tag.User? || k.tag.Group?)) ==> MASK in keys)
  }

  ghost predicate AclValid(acl: seq<Entry>) { Unique(acl) && KeysOk(AsMap(acl).Keys) }

  ghost function MapEdit(m: map<Key, Perms>, op: Operation, e: Entry): map<Key, Perms> {
    match op case Modify => m[K(e) := e.perms] case Remove => m - {K(e)}
  }

  /** The mask a map of entries asks for. */
  ghost function MapMask(m: map<Key, Perms>): Perms {
    Perms(exists k :: k in m && Masked(k) && m[k].r,
          exists k :: k in m && Masked(k) && m[k].w,
          exists k :: k in m && Masked(k) && m[k].x)
  }

  ghost function MapStep(m: map<Key, Perms>, op: Operation, e: Entry, recalc: bool): map<Key, Perms> {
    var n := MapEdit(m, op, e);
    if recalc then n[MASK := MapMask(n)] else n
  }

  ghost predicate HasKey(acl: seq<Entry>, k: Key) { exists i :: 0 <= i < |acl| && K(acl[i]) == k }

  ghost predicate Represents(acl: seq<Entry>, m: map<Key, Perms>) {
    && (forall i :: 0 <= i < |acl| ==> K(acl[i]) in m && m[K(acl[i])] == acl[i].perms)
    && (forall k :: k in m ==> HasKey(acl, k))
  }

  lemma {:induction false} MapRepresents(acl: seq<Entry>)
    requires Unique(acl)
    ensures Represents(acl, AsMap(acl))
  {
  }

  lemma {:induction false} MapIs(acl: seq<Entry>, m: map<Key, Perms>)
    requires Unique(acl) && Represents(acl, m)
    ensures AsMap(acl) == m
  {
  }

  lemma {:induction false} PutUnique(acl: seq<Entry>, k: Key, p: Perms)
    requires Unique(acl) && k == KeyOf(k.tag, k.qual)
    ensures Unique(Put(acl, k, p))
  {
  }

  lemma {:induction false} PutRepresents(acl: seq<Entry>, m: map<Key, Perms>, k: Key, p: Perms)
    requires Unique(acl) && Represents(acl, m) && k == KeyOf(k.tag, k.qual)
    ensures Represents(Put(acl, k, p), m[k := p])
  {
    var r, f := Put(acl, k, p), Find(acl, k);
    var at := if f >= 0 then f else |acl|;
    assert r[at].perms == p && K(r[at]) == k;
    forall x | x in m ensures HasKey(r, x) {
      var i :| 0 <= i < |acl| && K(acl[i]) == x;
      assert K(r[i]) == x;
    }
  }

  lemma {:induction false} PutRefines(acl: seq<Entry>, k: Key, p: Perms)
    requires Unique(acl) && k == KeyOf(k.tag, k.qual)
    ensures Unique(Put(acl, k, p)) && AsMap(Put(acl, k, p)) == AsMap(acl)[k := p]
  {
    MapRepresents(acl);
    PutUnique(acl, k, p);
    PutRepresents(acl, AsMap(acl), k, p);
    MapIs(Put(acl, k, p), AsMap(acl)[k := p]);
  }

  lemma {:induction false} CutOut(acl: seq<Entry>, m: map<Key, Perms>, f: nat)
    requires f < |acl| && Unique(acl) && Represents(acl, m)
    ensures Unique(acl[..f] + acl[f+1..]) && Represents(acl[..f] + acl[f+1..], m - {K(acl[f])})
  {
    var r := acl[..f] + acl[f+1..];
    assert forall i :: 0 <= i < |r| ==> r[i] == acl[if i < f then i else i + 1];
    forall x | x in m - {K(acl[f])} ensures HasKey(r, x) {
      var i :| 0 <= i < |acl| && K(acl[i]) == x;
      assert K(r[if i < f then i else i - 1]) == x;
    }
  }

  lemma {:induction false} DeleteRefines(acl: seq<Entry>, k: Key)
    requires Unique(acl)
    ensures Unique(Delete(acl, k)) && AsMap(Delete(acl, k)) == AsMap(acl) - {k}
  {
    var f := Find(acl, k);
    KeyByFind(acl, k);
    if f >= 0 {
      CutOutRefines(acl, f);
    } else {
      MissingKey(AsMap(acl), k);
    }
  }

  lemma {:induction false} CutOutRefines(acl: seq<Entry>, f: nat)
    requires f < |acl| && Unique(acl)
    ensures Unique(acl[..f] + acl[f+1..]) && AsMap(acl[..f] + acl[f+1..]) == AsMap(acl) - {K(acl[f])}
  {
    MapRepresents(acl);
    CutOut(acl, AsMap(acl), f);
    MapIs(acl[..f] + acl[f+1..], AsMap(acl) - {K(acl[f])});
  }

  lemma {:induction false} MissingKey(m: map<Key, Perms>, k: Key)
    requires k !in m
    ensures m - {k} == m
  {
  }

  /** Some masked entry before `n` has the permission that `sel` selects. */
  ghost predicate SomeMasked(acl: seq<Entry>, sel: Perms -> bool) {
    exists i :: 0 <= i < |acl| && Masked(K(acl[i])) && sel(acl[i].perms)
  }

  lemma {:induction false} SomeMaskedStep(acl: seq<Entry>, sel: Perms -> bool)
    requires acl != []
    ensures SomeMasked(acl, sel) <==>
            SomeMasked(acl[..|acl|-1], sel) || (Masked(K(acl[|acl|-1])) && sel(acl[|acl|-1].perms))
  {
  }

  lemma {:induction false} MaskPermsIs(acl: seq<Entry>)
    ensures MaskPerms(acl) == Perms(SomeMasked(acl, (p: Perms) => p.r),
                                    SomeMasked(acl, (p: Perms) => p.w),
                                    SomeMasked(acl, (p: Perms) => p.x))
  {
    if acl != [] {
      MaskPermsIs(acl[..|acl|-1]);
      SomeMaskedStep(acl, (p: Perms) => p.r);
      SomeMaskedStep(acl, (p: Perms) => p.w);
      SomeMaskedStep(acl, (p: Perms) => p.x);
    }
  }

  lemma {:induction false} MaskAgrees(acl: seq<Entry>)
    requires Unique(acl)
    ensures MaskPerms(acl) == MapMask(AsMap(acl))
  {
    MaskPermsIs(acl);
    MaskBit(acl, (p: Perms) => p.r);
    MaskBit(acl, (p: Perms) => p.w);
    MaskBit(acl, (p: Perms) => p.x);
  }

  lemma {:induction false} MaskBit(acl: seq<Entry>, sel: Perms -> bool)
    requires Unique(acl)
    ensures SomeMasked(acl, sel) <==> exists k :: k in AsMap(acl) && Masked(k) && sel(AsMap(acl)[k])
  {
  }

  /** One edit of the list, mask included, is one edit of the map. */
  lemma {:induction false} StepRefines(acl: seq<Entry>, op: Operation, e: Entry, recalc: bool)
    requires Unique(acl)
    ensures Unique(EditStep(acl, op, e, recalc))
    ensures AsMap(EditStep(acl, op, e, recalc)) == MapStep(AsMap(acl), op, e, recalc)
  {
    PutRefines(acl, K(e), e.perms);
    DeleteRefines(acl, K(e));
    var b := Edit(acl, op, e);
    MaskAgrees(b);
    PutRefines(b, MASK, MaskPerms(b));
  }

  // ----- the whole update

  /** What is in the file at the end; `ok` is false when acl_valid() refused the list
      after some edit, and then the file holds the result of the edit before. */
  datatype Outcome = Outcome(file: seq<Entry>, ok: bool)

  /** One turn of the loop: nothing after a refusal, otherwise edit, check and write. */
  ghost function Advance(o: Outcome, op: Operation, e: Entry, recalc: bool): Outcome {
    if !o.ok then o
    else
      var next := EditStep(o.file, op, e, recalc);
      if AclValid(next) then Outcome(next, true) else Outcome(o.file, false)
  }

  ghost function Update(acl: seq<Entry>, op: Operation, edits: seq<Entry>, recalc: bool): Outcome {
    if edits == [] then Outcome(acl, true)
    else Advance(Update(acl, op, edits[..|edits|-1], recalc), op, edits[|edits|-1], recalc)
  }

  lemma {:induction false} UpdateTurn(acl: seq<Entry>, op: Operation, edits: seq<Entry>, recalc: bool, n: nat)
    requires n < |edits|
    ensures Update(acl, op, edits[..n+1], recalc) == Advance(Update(acl, op, edits[..n], recalc), op, edits[n], recalc)
  {
    var pre := edits[..n+1];
    assert pre[..n] == edits[..n] && pre[|pre|-1] == edits[n];
  }

  /** Once an edit has been refused nothing more is done. */
  lemma {:induction false} UpdateStops(acl: seq<Entry>, op: Operation, edits: seq<Entry>, recalc: bool, n: nat, m: nat)
    requires n <= m <= |edits| && !Update(acl, op, edits[..n], recalc).ok
    ensures Update(acl, op, edits[..m], recalc) == Update(acl, op, edits[..n], recalc)
    decreases m
  {
    if n < m {
      UpdateStops(acl, op, edits, recalc, n, m-1);
      StaysStopped(acl, op, edits, recalc, m-1, Update(acl, op, edits[..n], recalc));
    }
  }

  lemma {:induction false} StaysStopped(acl: seq<Entry>, op: Operation, edits: seq<Entry>, recalc: bool, n: nat,
                                        o: Outcome)
    requires n < |edits| && !o.ok && Update(acl, op, edits[..n], recalc) == o
    ensures Update(acl, op, edits[..n+1], recalc) == o
  {
    UpdateTurn(acl, op, edits, recalc, n);
  }

  ghost function MapUpdate(m: map<Key, Perms>, op: Operation, edits: seq<Entry>, recalc: bool): map<Key, Perms> {
    if edits == [] then m
    else MapStep(MapUpdate(m, op, edits[..|edits|-1], recalc), op, edits[|edits|-1], recalc)
  }

  /** A completed update is the fold of the edits over the map, and keys stay unique. */
  lemma {:induction false} UpdateRefines(acl: seq<Entry>, op: Operation, edits: seq<Entry>, recalc: bool)
    requires Unique(acl)
    ensures var o := Update(acl, op, edits, recalc);
            && Unique(o.file)
            && (o.ok ==> AsMap(o.file) == MapUpdate(AsMap(acl), op, edits, recalc))
            && (o.ok && edits != [] ==> AclValid(o.file))
  {
    if edits != [] {
      var init := edits[..|edits|-1];
      UpdateRefines(acl, op, init, recalc);
      StepRefines(Update(acl, op, init, recalc).file, op, edits[|edits|-1], recalc);
    }
  }

  /** Index of the last edit of `k`, or -1. */
  function LastEdit(edits: seq<Entry>, k: Key): (r: int)
    ensures -1 <= r < |edits|
  {
    if edits == [] then -1
    else if K(edits[|edits|-1]) == k then |edits|-1
    else LastEdit(edits[..|edits|-1], k)
  }

  ghost predicate SameAt(m: map<Key, Perms>, n: map<Key, Perms>, k: Key) {
    (k in m <==> k in n) && (k in m ==> m[k] == n[k])
  }

  /** The last edit of a key decides it and a key no edit names is untouched; a
      recalculated mask is the exception and is what the final entries ask for. */
  lemma {:induction false} LastEditWins(m: map<Key, Perms>, op: Operation, edits: seq<Entry>, recalc: bool, k: Key)
    ensures var n := MapUpdate(m, op, edits, recalc);
            if recalc && k == MASK && edits != [] then k in n && n[k] == MapMask(n)
            else if LastEdit(edits, k) == -1 then SameAt(n, m, k)
            else if op == Modify then k in n && n[k] == edits[LastEdit(edits, k)].perms
            else k !in n
  {
    if edits != [] {
      LastEditWins(m, op, edits[..|edits|-1], recalc, k);
      var b := MapEdit(MapUpdate(m, op, edits[..|edits|-1], recalc), op, edits[|edits|-1]);
      assert MapMask(b[MASK := MapMask(b)]) == MapMask(b) by {
        MaskIgnoresItself(b, MapMask(b));
      }
    }
  }

  lemma {:induction false} MaskIgnoresItself(m: map<Key, Perms>, p: Perms)
    ensures MapMask(m[MASK := p]) == MapMask(m)
  {
  }

  lemma {:induction false} MaskDetermined(m: map<Key, Perms>, n: map<Key, Perms>)
    requires forall k :: Masked(k) ==> SameAt(m, n, k)
    ensures MapMask(m) == MapMask(n)
  {
  }

  // ----- running it again

  /** Editing again with the same list changes nothing in the map. */
  lemma {:induction false} MapUpdateTwice(m: map<Key, Perms>, op: Operation, edits: seq<Entry>, recalc: bool)
    ensures var n := MapUpdate(m, op, edits, recalc);
            MapUpdate(n, op, edits, recalc) == n
  {
    var n := MapUpdate(m, op, edits, recalc);
    var nn := MapUpdate(n, op, edits, recalc);
    forall k | k != MASK || !recalc || edits == [] ensures SameAt(nn, n, k) {
      LastEditWins(m, op, edits, recalc, k);
      LastEditWins(n, op, edits, recalc, k);
    }
    LastEditWins(m, op, edits, recalc, MASK);
    LastEditWins(n, op, edits, recalc, MASK);
    MaskDetermined(nn, n);
    SameMap(nn, n);
  }

  lemma {:induction false} SameMap(m: map<Key, Perms>, n: map<Key, Perms>)
    requires forall k :: SameAt(m, n, k)
    ensures m == n
  {
    assert forall k :: k in m ==> SameAt(m, n, k);
    assert forall k :: k in n ==> SameAt(m, n, k);
  }

  /** An edit that cannot change the key set of `keys`. */
  ghost predicate Settled(keys: set<Key>, op: Operation, e: Entry, recalc: bool) {
    if recalc && K(e) == MASK then true else if op == Modify then K(e) in keys else K(e) !in keys
  }

  lemma {:induction false} SettledKeepsKeys(m: map<Key, Perms>, op: Operation, e: Entry, recalc: bool)
    requires Settled(m.Keys, op, e, recalc) && (recalc ==> MASK in m)
    ensures MapStep(m, op, e, recalc).Keys == m.Keys
  {
  }

  /** The second time every step keeps the key set, so every step is valid. */
  lemma {:induction false} SecondRunCompletes(a: seq<Entry>, op: Operation, edits: seq<Entry>, recalc: bool)
    requires AclValid(a) && (recalc ==> MASK in AsMap(a))
    requires forall i :: 0 <= i < |edits| ==> Settled(AsMap(a).Keys, op, edits[i], recalc)
    ensures var o := Update(a, op, edits, recalc);
            o.ok && Unique(o.file) && AsMap(o.file).Keys == AsMap(a).Keys
  {
    if edits != [] {
      var init, e := edits[..|edits|-1], edits[|edits|-1];
      SecondRunCompletes(a, op, init, recalc);
      var prev := Update(a, op, init, recalc).file;
      StepRefines(prev, op, e, recalc);
      assert Settled(AsMap(prev).Keys, op, e, recalc);
      SettledKeepsKeys(AsMap(prev), op, e, recalc);
    }
  }

  /** Main result: a completed update run a second time completes and leaves every
      entry, the mask included, as it was. */
  lemma {:induction false} UpdateIdempotent(acl: seq<Entry>, op: Operation, edits: seq<Entry>, recalc: bool)
    requires Unique(acl) && Update(acl, op, edits, recalc).ok
    ensures var a := Update(acl, op, edits, recalc).file;
            var b := Update(a, op, edits, recalc);
            b.ok && Unique(a) && Unique(b.file) && AsMap(b.file) == AsMap(a)
  {
    UpdateRefines(acl, op, edits, recalc);
    var a := Update(acl, op, edits, recalc).file;
    if edits != [] {
      var m := AsMap(acl);
      forall i | 0 <= i < |edits| ensures Settled(AsMap(a).Keys, op, edits[i], recalc) {
        NamedByLast(edits, i);
        LastEditWins(m, op, edits, recalc, K(edits[i]));
      }
      LastEditWins(m, op, edits, recalc, MASK);
      SecondRunCompletes(a, op, edits, recalc);
      UpdateRefines(a, op, edits, recalc);
      MapUpdateTwice(m, op, edits, recalc);
    }
  }

  lemma {:induction false} NamedByLast(edits: seq<Entry>, i: nat)
    requires i < |edits|
    ensures LastEdit(edits, K(edits[i])) >= i
  {
    if i < |edits| - 1 {
      NamedByLast(edits[..|edits|-1], i);
    }
  }

  // ----- entry by entry

  /** The two stand for the same user, group or class: only the tags of named users and
      groups are told apart further, by their qualifiers. */
  ghost predicate Same(x: Entry, y: Entry) { x.tag == y.tag && (x.tag == User || x.tag == Group ==> x.qual == y.qual) }

  ghost predicate Distinct(acl: seq<Entry>) {
    forall i, j :: 0 <= i < j < |acl| ==> !Same(acl[i], acl[j])
  }

  ghost predicate Holds(acl: seq<Entry>, e: Entry, p: Perms) {
    exists i :: 0 <= i < |acl| && Same(acl[i], e) && acl[i].perms == p
  }

  ghost predicate Lacks(acl: seq<Entry>, e: Entry) { forall i :: 0 <= i < |acl| ==> !Same(acl[i], e) }

  lemma {:induction false} PutExact(acl: seq<Entry>, k: Key, p: Perms, x: Entry)
    requires k == KeyOf(k.tag, k.qual) && K(x) != k
    ensures multiset(Put(acl, k, p))[x] == multiset(acl)[x]
  {
    var i := Find(acl, k);
    if i >= 0 {
      var y := acl[i].(perms := p);
      assert K(y) == k && K(acl[i]) == k;
      assert multiset(acl[i := y]) == multiset(acl) - multiset{acl[i]} + multiset{y};
    }
  }

  lemma {:induction false} DeleteExact(acl: seq<Entry>, k: Key, x: Entry)
    requires K(x) != k
    ensures multiset(Delete(acl, k))[x] == multiset(acl)[x]
  {
    var i := Find(acl, k);
    if i >= 0 {
      assert acl == acl[..i] + [acl[i]] + acl[i+1..];
      assert multiset(acl) == multiset(acl[..i]) + multiset{acl[i]} + multiset(acl[i+1..]);
    }
  }

  /** One edit changes no entry of another user, group or class. After a modification the
      entry it names has its permissions, and after a removal it is gone. */
  lemma {:induction false} EditExact(acl: seq<Entry>, op: Operation, e: Entry)
    ensures forall x :: !Same(x, e) ==> multiset(Edit(acl, op, e))[x] == multiset(acl)[x]
    ensures op == Modify ==> Holds(Edit(acl, op, e), e, e.perms)
    ensures op == Remove && Distinct(acl) ==> Lacks(Edit(acl, op, e), e)
    ensures Distinct(acl) ==> Distinct(Edit(acl, op, e))
  {
    var r, f := Edit(acl, op, e), Find(acl, K(e));
    forall x | !Same(x, e) ensures multiset(r)[x] == multiset(acl)[x] {
      assert K(x) != K(e);
      if op == Modify {
        PutExact(acl, K(e), e.perms, x);
      } else {
        DeleteExact(acl, K(e), x);
      }
    }
    if op == Modify {
      assert Same(r[if f >= 0 then f else |acl|], e);
    }
    if Distinct(acl) {
      EditDistinct(acl, op, e);
    }
  }

  lemma {:induction false} EditDistinct(acl: seq<Entry>, op: Operation, e: Entry)
    requires Distinct(acl)
    ensures Distinct(Edit(acl, op, e)) && (op == Remove ==> Lacks(Edit(acl, op, e), e))
  {
    var f := Find(acl, K(e));
    FoundIsSame(acl, e);
    if f == -1 {
      AddDistinct(acl, e, Entry(K(e).tag, K(e).qual, e.perms));
    } else {
      ChangeDistinct(acl, f, e.perms);
      CutDistinct(acl, f);
      SameLacks(acl[..f] + acl[f+1..], acl[f], e);
    }
  }

  lemma {:induction false} FoundIsSame(acl: seq<Entry>, e: Entry)
    ensures if Find(acl, K(e)) == -1 then Lacks(acl, e) else Same(acl[Find(acl, K(e))], e)
  {
  }

  lemma {:induction false} SameLacks(acl: seq<Entry>, x: Entry, e: Entry)
    requires Lacks(acl, x) && Same(x, e)
    ensures Lacks(acl, e)
  {
  }

  lemma {:induction false} AddDistinct(acl: seq<Entry>, e: Entry, x: Entry)
    requires Distinct(acl) && Lacks(acl, e) && Same(x, e)
    ensures Distinct(acl + [x])
  {
    SameLacks(acl, e, x);
  }

  lemma {:induction false} ChangeDistinct(acl: seq<Entry>, f: nat, p: Perms)
    requires Distinct(acl) && f < |acl|
    ensures Distinct(acl[f := acl[f].(perms := p)])
  {
  }

  lemma {:induction false} CutDistinct(acl: seq<Entry>, f: nat)
    requires Distinct(acl) && f < |acl|
    ensures Distinct(acl[..f] + acl[f+1..]) && Lacks(acl[..f] + acl[f+1..], acl[f])
  {
    var r := acl[..f] + acl[f+1..];
    assert forall i :: 0 <= i < |r| ==> r[i] == acl[if i < f then i else i + 1];
  }

  lemma {:induction false} UniqueIsDistinct(acl: seq<Entry>)
    ensures Unique(acl) <==> Distinct(acl)
  {
    forall i, j | 0 <= i < j < |acl| ensures Same(acl[i], acl[j]) <==> K(acl[i]) == K(acl[j]) {
    }
    if Distinct(acl) {
      forall i, j | 0 <= i < |acl| && 0 <= j < |acl| && i != j ensures K(acl[i]) != K(acl[j]) {
        assert !Same(acl[i], acl[j]) || !Same(acl[j], acl[i]);
      }
    }
  }

  /** Some entry that the mask limits has the permission that `sel` selects. */
  ghost predicate Limited(acl: seq<Entry>, sel: Perms -> bool) {
    exists i :: 0 <= i < |acl| && acl[i].tag in {User, GroupObj, Group} && sel(acl[i].perms)
  }

  /** The mask is the union of what named users, the owning group and named groups have. */
  lemma {:induction false} MaskExact(acl: seq<Entry>)
    ensures MaskPerms(acl).r <==> Limited(acl, (p: Perms) => p.r)
    ensures MaskPerms(acl).w <==> Limited(acl, (p: Perms) => p.w)
    ensures MaskPerms(acl).x <==> Limited(acl, (p: Perms) => p.x)
  {
    if acl != [] {
      var n := |acl| - 1;
      MaskExact(acl[..n]);
      LimitedStep(acl, (p: Perms) => p.r);
      LimitedStep(acl, (p: Perms) => p.w);
      LimitedStep(acl, (p: Perms) => p.x);
    }
  }

  lemma {:induction false} LimitedStep(acl: seq<Entry>, sel: Perms -> bool)
    requires acl != []
    ensures var n := |acl| - 1;
            Limited(acl, sel) <==>
              Limited(acl[..n], sel) || (acl[n].tag in {User, GroupObj, Group} && sel(acl[n].perms))
  {
  }

  /** A change of entries by one edit with its mask, seen from an entry `x` that neither of
      them names. */
  lemma {:induction false} StepExact(acl: seq<Entry>, op: Operation, e: Entry, recalc: bool, x: Entry)
    requires !Same(x, e) && (recalc ==> x.tag != Mask)
    ensures multiset(EditStep(acl, op, e, recalc))[x] == multiset(acl)[x]
  {
    EditExact(acl, op, e);
    if recalc {
      PutExact(Edit(acl, op, e), MASK, MaskPerms(Edit(acl, op, e)), x);
    }
  }

  /** Whatever becomes of an update, completed or refused half way: an entry that no edit
      names is there as often as before; only a recalculated mask may change as well. */
  lemma {:induction false} UntouchedEntries(acl: seq<Entry>, op: Operation, edits: seq<Entry>, recalc: bool, x: Entry)
    requires (forall i :: 0 <= i < |edits| ==> !Same(x, edits[i])) && (recalc ==> x.tag != Mask)
    ensures multiset(Update(acl, op, edits, recalc).file)[x] == multiset(acl)[x]
  {
    if edits != [] {
      var init := edits[..|edits|-1];
      UntouchedEntries(acl, op, init, recalc, x);
      StepExact(Update(acl, op, init, recalc).file, op, edits[|edits|-1], recalc, x);
    }
  }

  /** A completed update does what the last edit of each user, group or class says, and a
      recalculated mask is the union of the entries it limits. */
  lemma {:induction false} CompletedEntries(acl: seq<Entry>, op: Operation, edits: seq<Entry>, recalc: bool, i: nat)
    requires Distinct(acl) && Update(acl, op, edits, recalc).ok && i < |edits|
    requires forall j :: i < j < |edits| ==> !Same(edits[j], edits[i])
    ensures var file := Update(acl, op, edits, recalc).file;
            && Distinct(file)
            && if recalc && edits[i].tag == Mask then Holds(file, edits[i], MaskPerms(file))
               else if op == Modify then Holds(file, edits[i], edits[i].perms)
               else Lacks(file, edits[i])
  {
    UniqueIsDistinct(acl);
    UpdateRefines(acl, op, edits, recalc);
    var file, k := Update(acl, op, edits, recalc).file, K(edits[i]);
    UniqueIsDistinct(file);
    MaskAgrees(file);
    LastIs(edits, i);
    LastEditWins(AsMap(acl), op, edits, recalc, k);
    ByKey(file, edits[i]);
  }

  lemma {:induction false} LastIs(edits: seq<Entry>, i: nat)
    requires i < |edits| && forall j :: i < j < |edits| ==> !Same(edits[j], edits[i])
    ensures LastEdit(edits, K(edits[i])) == i
  {
    if i < |edits| - 1 {
      LastIs(edits[..|edits|-1], i);
    }
  }

  lemma {:induction false} ByKey(acl: seq<Entry>, e: Entry)
    requires Unique(acl)
    ensures K(e) in AsMap(acl) ==> Holds(acl, e, AsMap(acl)[K(e)])
    ensures K(e) !in AsMap(acl) ==> Lacks(acl, e)
  {
    if K(e) in AsMap(acl) {
      var i :| 0 <= i < |acl| && K(acl[i]) == K(e);
      assert Same(acl[i], e);
    } else {
      forall i | 0 <= i < |acl| ensures !Same(acl[i], e) {
        assert K(acl[i]) in AsMap(acl);
      }
    }
  }

  ghost predicate HasTag(acl: seq<Entry>, tag: Tag) { exists i :: 0 <= i < |acl| && acl[i].tag == tag }

  /** What acl_valid() asks for. */
  lemma {:induction false} ValidExact(acl: seq<Entry>)
    ensures AclValid(acl) <==>
      && Distinct(acl) && HasTag(acl, UserObj) && HasTag(acl, GroupObj) && HasTag(acl, Other)
      && (HasTag(acl, User) || HasTag(acl, Group) ==> HasTag(acl, Mask))
  {
    UniqueIsDistinct(acl);
    if Unique(acl) {
      NamedKeys(acl);
      TagKey(acl, UserObj);
      TagKey(acl, GroupObj);
      TagKey(acl, Other);
      TagKey(acl, Mask);
    }
  }

  lemma {:induction false} TagKey(acl: seq<Entry>, tag: Tag)
    requires Unique(acl) && tag != User && tag != Group
    ensures Key(tag, 0) in AsMap(acl) <==> HasTag(acl, tag)
  {
    if i :| 0 <= i < |acl| && acl[i].tag == tag {
      assert K(acl[i]) == Key(tag, 0) && K(acl[i]) in AsMap(acl);
    }
  }

  /** All edits one after another, with no check between them. */
  function Folded(acl: seq<Entry>, op: Operation, edits: seq<Entry>, recalc: bool): seq<Entry> {
    if edits == [] then acl
    else EditStep(Folded(acl, op, edits[..|edits|-1], recalc), op, edits[|edits|-1], recalc)
  }

  /** The first `n` edits all leave a list that acl_valid() accepts. */
  ghost predicate ValidUpTo(acl: seq<Entry>, op: Operation, edits: seq<Entry>, recalc: bool, n: nat)
    requires n <= |edits|
  {
    forall m :: 0 < m <= n ==> AclValid(Folded(acl, op, edits[..m], recalc))
  }

  /** Edit `n` is the first whose result acl_valid() refuses. */
  ghost predicate RefusedAt(acl: seq<Entry>, op: Operation, edits: seq<Entry>, recalc: bool, n: int) {
    0 <= n < |edits| && ValidUpTo(acl, op, edits, recalc, n) && !AclValid(Folded(acl, op, edits[..n+1], recalc))
  }

  lemma {:induction false} FoldedNext(acl: seq<Entry>, op: Operation, edits: seq<Entry>, recalc: bool, n: nat)
    requires n < |edits|
    ensures Folded(acl, op, edits[..n+1], recalc) == EditStep(Folded(acl, op, edits[..n], recalc), op, edits[n], recalc)
  {
    assert edits[..n+1][..n] == edits[..n];
  }

  lemma {:induction false} ValidNext(acl: seq<Entry>, op: Operation, edits: seq<Entry>, recalc: bool, n: nat)
    requires n < |edits|
    ensures ValidUpTo(acl, op, edits, recalc, n + 1) <==>
            ValidUpTo(acl, op, edits, recalc, n) && AclValid(Folded(acl, op, edits[..n+1], recalc))
  {
  }

  ghost predicate LeftAt(acl: seq<Entry>, op: Operation, edits: seq<Entry>, recalc: bool, file: seq<Entry>, n: int) {
    RefusedAt(acl, op, edits, recalc, n) && file == Folded(acl, op, edits[..n], recalc)
  }

  lemma {:induction false} CompletesPrefix(acl: seq<Entry>, op: Operation, edits: seq<Entry>, recalc: bool, n: nat)
    requires n <= |edits|
    ensures var o := Update(acl, op, edits[..n], recalc);
            && (o.ok <==> ValidUpTo(acl, op, edits, recalc, n))
            && if o.ok then o.file == Folded(acl, op, edits[..n], recalc)
               else exists m :: LeftAt(acl, op, edits, recalc, o.file, m)
  {
    if n > 0 {
      CompletesPrefix(acl, op, edits, recalc, n-1);
      UpdateTurn(acl, op, edits, recalc, n-1);
      FoldedNext(acl, op, edits, recalc, n-1);
      ValidNext(acl, op, edits, recalc, n-1);
      var before := Update(acl, op, edits[..n-1], recalc);
      if before.ok && !Update(acl, op, edits[..n], recalc).ok {
        assert LeftAt(acl, op, edits, recalc, before.file, n-1);
      }
    }
  }

  /** An update completes exactly if the list is valid after every edit; otherwise the file
      is left as it was before the first edit whose result is not. */
  lemma {:induction false} CompletesIff(acl: seq<Entry>, op: Operation, edits: seq<Entry>, recalc: bool)
    ensures var o := Update(acl, op, edits, recalc);
            && (o.ok <==> forall n :: 0 < n <= |edits| ==> AclValid(Folded(acl, op, edits[..n], recalc)))
            && if o.ok then o.file == Folded(acl, op, edits, recalc)
               else exists n :: LeftAt(acl, op, edits, recalc, o.file, n)
  {
    CompletesPrefix(acl, op, edits, recalc, |edits|);
    assert edits[..|edits|] == edits;
  }

  // ----- the code

  method FindEntry(acl: seq<Entry>, tag: Tag, qual: int) returns (entry: int)
    ensures entry == Find(acl, KeyOf(tag, qual))
    ensures -1 <= entry < |acl|
    ensures entry >= 0 ==> acl[entry].tag == tag && (tag == User || tag == Group ==> acl[entry].qual == qual)
    ensures forall i :: 0 <= i < (if entry == -1 then |acl| else entry) ==>
              acl[i].tag != tag || ((tag == User || tag == Group) && acl[i].qual != qual)
  {
    ghost var k := KeyOf(tag, qual);
    entry := 0;
    while entry < |acl|
      invariant 0 <= entry <= |acl|
      invariant Find(acl, k) == -1 || Find(acl, k) >= entry
      invariant forall i :: 0 <= i < entry ==>
                  acl[i].tag != tag || ((tag == User || tag == Group) && acl[i].qual != qual)
      invariant var r := Find(acl[entry..], k); Find(acl, k) == if r == -1 then -1 else r + entry
    {
      if acl[entry].tag == tag {
        if tag.User? || tag.Group? {
          if acl[entry].qual == qual { return; }
        } else {
          return;
        }
      }
      assert acl[entry..][1..] == acl[entry+1..];
      entry := entry + 1;
    }
    entry := -1;
  }

  method IsValid(acl: seq<Entry>) returns (ok: bool)
    ensures ok == AclValid(acl)
  {
    var unique := forall i, j :: 0 <= i < |acl| && 0 <= j < |acl| && i != j ==> K(acl[i]) != K(acl[j]);
    var u := FindEntry(acl, UserObj, 0);
    var g := FindEntry(acl, GroupObj, 0);
    var o := FindEntry(acl, Other, 0);
    var m := FindEntry(acl, Mask, 0);
    var named := exists i :: 0 <= i < |acl| && (acl[i].tag.User? || acl[i].tag.Group?);
    ok := unique && u >= 0 && g >= 0 && o >= 0 && (named ==> m >= 0);
    if unique {
      ValidByFind(acl, named);
    }
  }

  lemma {:induction false} ValidByFind(acl: seq<Entry>, named: bool)
    requires Unique(acl) && (named <==> exists i :: 0 <= i < |acl| && (acl[i].tag.User? || acl[i].tag.Group?))
    ensures AclValid(acl) <==>
      && Find(acl, Key(UserObj, 0)) >= 0 && Find(acl, Key(GroupObj, 0)) >= 0 && Find(acl, Key(Other, 0)) >= 0
      && (named ==> Find(acl, MASK) >= 0)
  {
    NamedKeys(acl);
    KeyByFind(acl, Key(UserObj, 0));
    KeyByFind(acl, Key(GroupObj, 0));
    KeyByFind(acl, Key(Other, 0));
    KeyByFind(acl, MASK);
  }

  lemma {:induction false} NamedKeys(acl: seq<Entry>)
    requires Unique(acl)
    ensures (exists k :: k in AsMap(acl).Keys && (k.tag.User? || k.tag.Group?)) <==>
            exists i :: 0 <= i < |acl| && (acl[i].tag.User? || acl[i].tag.Group?)
  {
    forall i | 0 <= i < |acl| ensures K(acl[i]) in AsMap(acl).Keys {
    }
    if i :| 0 <= i < |acl| && (acl[i].tag.User? || acl[i].tag.Group?) {
      var k := K(acl[i]);
      assert k in AsMap(acl).Keys && k.tag == acl[i].tag;
    }
  }

  lemma {:induction false} KeyByFind(acl: seq<Entry>, k: Key)
    requires Unique(acl)
    ensures k in AsMap(acl) <==> Find(acl, k) >= 0
  {
  }

  /** One edit: search, then delete, or create if missing and set the permissions. */
  method EditEntry(acl: seq<Entry>, op: Operation, e: Entry) returns (r: seq<Entry>)
    ensures r == Edit(acl, op, e)
  {
    var entry := FindEntry(acl, e.tag, e.qual);
    r := acl;
    if op == Remove {
      if entry != -1 {
        r := r[..entry] + r[entry+1..];
      }
    } else {
      if entry == -1 {
        r := r + [Entry(e.tag, KeyOf(e.tag, e.qual).qual, NONE)];
        entry := |r| - 1;
      }
      r := r[entry := r[entry].(perms := e.perms)];
    }
  }

  /** One turn of the loop of updateACL(): edit, recalculate, check and write. */
  method UpdateOne(acl: seq<Entry>, op: Operation, e: Entry, recalc: bool) returns (file: seq<Entry>, ok: bool)
    ensures Outcome(file, ok) == Advance(Outcome(acl, true), op, e, recalc)
  {
    var next := EditEntry(acl, op, e);
    if recalc {
      next := CalcMask(next);
    }
    ok := IsValid(next);
    file := if ok then next else acl;
  }

  /** The loop of updateACL(). */
  method UpdateAcl(acl: seq<Entry>, op: Operation, edits: seq<Entry>, recalc: bool) returns (file: seq<Entry>, ok: bool)
    ensures Outcome(file, ok) == Update(acl, op, edits, recalc)
  {
    file, ok := acl, true;
    var en := 0;
    while en < |edits| && ok
      invariant 0 <= en <= |edits|
      invariant Outcome(file, ok) == Update(acl, op, edits[..en], recalc)
    {
      UpdateTurn(acl, op, edits, recalc, en);
      file, ok := UpdateOne(file, op, edits[en], recalc);
      en := en + 1;
    }
    if !ok {
      UpdateStops(acl, op, edits, recalc, en, |edits|);
    }
    assert edits[..|edits|] == edits;
  }
}
