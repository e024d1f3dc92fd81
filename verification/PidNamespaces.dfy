/** pid_namespaces.go, the smaller program for PID namespaces only, and its agreement
    with namespaces_of.go run with --pidns. */
module PidNamespaces {
  import opened NamespaceForest
  import opened NamespaceScan

  datatype Attribs = Attribs(children: seq<Id>, pids: seq<int>)

  class Program {
    var nsList: map<Id, Attribs>
    var initialPidNS: Id

    constructor ()
      ensures nsList == map[] && initialPidNS == INVIS
    {
      nsList, initialPidNS := map[], INVIS;
    }

    /** One recursive function does it all; `f` is the forest of the larger program. */
    method AddNamespace(w: World, nsid: Id, pid: int, ghost f: Forest)
      requires ValidWorld(w, true) && nsid in w.types
      requires nsList == Projected(f) && initialPidNS == f.root
      modifies this
      ensures nsList == Projected(Add(w, true, f, nsid, pid)) && initialPidNS == Add(w, true, f, nsid, pid).root
      decreases w.depth[nsid]
    {
      AddMembers(w, true, f, nsid, pid);
      ghost var g := f;
      if nsid !in nsList {
        nsList := nsList[nsid := Attribs([], [])];
        g := AddEntry(f, nsid, w.types[nsid]);
        ProjectEntry(f, nsid, w.types[nsid]);
        if nsid !in w.up {
          initialPidNS := nsid;
          g := g.(root := nsid);
        } else {
          var p := w.up[nsid];
          AddNamespace(w, p, -1, g);
          AddMembers(w, true, g, p, -1);
          g := Add(w, true, g, p, -1);
          nsList := nsList[p := nsList[p].(children := nsList[p].children + [nsid])];
          ProjectChild(g, p, nsid);
          g := AppendChild(g, p, nsid);
        }
        assert g == AddToList(w, true, f, nsid);
        AddToListMembers(w, true, f, nsid);
      }
      if pid > 0 {
        nsList := nsList[nsid := nsList[nsid].(pids := nsList[nsid].pids + [pid])];
      }
      ProjectPid(g, nsid, pid);
    }

    /** The loop in main(): for every scan the small program ends with the entries, the
        child lists, the members and the root of the large one, in the same order. */
    method ScanProcesses(w: World, scans: seq<Scan>)
      requires ValidWorld(w, true) && Visible(w, scans) && nsList == map[] && initialPidNS == INVIS
      modifies this
      ensures nsList == Projected(ScanAll(w, true, scans)) && initialPidNS == ScanAll(w, true, scans).root
    {
      var i := 0;
      assert Projected(EMPTY_FOREST) == map[];
      while i < |scans|
        invariant 0 <= i <= |scans|
        invariant nsList == Projected(ScanAll(w, true, scans[..i])) && initialPidNS == ScanAll(w, true, scans[..i]).root
      {
        AddNamespace(w, scans[i].ns, scans[i].pid, ScanAll(w, true, scans[..i]));
        assert scans[..i+1][..i] == scans[..i];
        i := i + 1;
      }
      assert scans[..i] == scans;
    }
  }

  /** The larger program's forest without the namespace types. */
  ghost function Projected(f: Forest): map<Id, Attribs> {
    map x | x in f.list :: Attribs(f.list[x].children, f.list[x].pids)
  }

  lemma {:induction false} ProjectEntry(f: Forest, x: Id, nsType: int)
    ensures Projected(AddEntry(f, x, nsType)) == Projected(f)[x := Attribs([], [])]
  {
  }

  lemma {:induction false} ProjectChild(f: Forest, p: Id, c: Id)
    requires p in f.list
    ensures Projected(AppendChild(f, p, c)) ==
            Projected(f)[p := Projected(f)[p].(children := Projected(f)[p].children + [c])]
  {
  }

  lemma {:induction false} ProjectPid(f: Forest, x: Id, pid: int)
    requires x in f.list
    ensures Projected(AppendPid(f, x, pid)) ==
            if pid > 0 then Projected(f)[x := Projected(f)[x].(pids := Projected(f)[x].pids + [pid])] else Projected(f)
  {
  }

  /** With --pidns nothing is ever filed under the invisible owner. */
  lemma {:induction false} PidModeHasNoInvisibleOwner(w: World, scans: seq<Scan>)
    requires ValidWorld(w, true) && Visible(w, scans)
    ensures INVIS !in ScanAll(w, true, scans).list
  {
    ScanResult(w, true, scans);
    RecordedIff(w, true, scans, INVIS);
    forall sc | sc in scans ensures INVIS !in Ancestry(w, true, sc.ns) {
      NoInvisInAncestry(w, sc.ns);
    }
  }

  lemma {:induction false} NoInvisInAncestry(w: World, x: Id)
    requires ValidWorld(w, true) && x in w.types
    ensures INVIS !in Ancestry(w, true, x)
    decreases w.depth[x]
  {
    if x in w.up {
      NoInvisInAncestry(w, w.up[x]);
    }
  }
}
