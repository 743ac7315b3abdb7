// Who maps which region: a region lives, where it was put, for as long as some process has it mapped.
module SvmClients {
  import opened Base
  import opened SvmPages

  // What the requests alone say: each mapping not yet undone, by region and process; and the first page
  // and the pages of each region, as of its last creation.
  datatype Ledger = Ledger(maps: multiset<(string, nat)>, places: map<string, (nat, nat)>)

  ghost predicate Mapped(l: Ledger, name: string) {
    exists pid :: (name, pid) in l.maps
  }

  // The first page from the second one on where `need` pages look free.
  ghost predicate FirstFree(bits: seq<bool>, beyond: nat -> bool, need: nat, i: nat) {
    1 <= i < |bits| && LooksFree(bits, beyond, i, need)
    && forall j :: 1 <= j < i ==> !LooksFree(bits, beyond, j, need)
  }

  // What a request does to the ledger, given the bitmap it meets.
  ghost predicate Entered(l: Ledger, bits: seq<bool>, q: Request, l': Ledger) {
    match q
    case Creating(name, pid, need, beyond) =>
      if Mapped(l, name) then
        l' == l.(maps := l.maps + multiset{(name, pid)})
      else if exists i :: FirstFree(bits, beyond, need, i) then
        exists i :: FirstFree(bits, beyond, need, i)
          && l' == Ledger(l.maps + multiset{(name, pid)}, l.places[name := (i, need)])
      else
        l' == l
    case Unmapping(name, pid) => l' == l.(maps := l.maps - multiset{(name, pid)})
  }

  // Each mapping is in its region's list of clients as often as in the ledger, and a region is known
  // where the ledger has it, if and only if somebody maps it.
  ghost predicate Agrees(r: Root, l: Ledger) {
    && (forall name :: name in r.regions <==> Mapped(l, name))
    && (forall name :: name in r.regions ==> RegionAgrees(r.regions[name], l, name))
  }

  ghost predicate RegionAgrees(g: Region, l: Ledger, name: string) {
    && (forall pid :: multiset(g.clients)[pid] == l.maps[(name, pid)])
    && name in l.places && l.places[name] == (g.base, g.pages)
  }

  // Removing a process from a list of clients takes out one of its entries, if there is one.
  lemma {:induction false} WithoutCounts(clients: seq<nat>, pid: nat)
    ensures multiset(Without(clients, pid)) == multiset(clients) - multiset{pid}
  {
    if clients != [] {
      assert clients == [clients[0]] + clients[1..];
      if clients[0] != pid { WithoutCounts(clients[1..], pid); }
    }
  }

  lemma MappedOf(g: Region, l: Ledger, name: string)
    requires RegionAgrees(g, l, name)
    ensures Mapped(l, name) <==> g.clients != []
  {
    if g.clients != [] { assert g.clients[0] in multiset(g.clients) && (name, g.clients[0]) in l.maps; }
    if Mapped(l, name) {
      var pid :| (name, pid) in l.maps;
      assert pid in multiset(g.clients);
    }
  }

  // What the rest of the ledger says does not matter to a region.
  lemma AgreesStill(g: Region, l: Ledger, l': Ledger, name: string)
    requires forall p :: l'.maps[(name, p)] == l.maps[(name, p)]
    requires name in l.places ==> name in l'.places && l'.places[name] == l.places[name]
    ensures Mapped(l', name) <==> Mapped(l, name)
    ensures RegionAgrees(g, l, name) ==> RegionAgrees(g, l', name)
  {
    forall p ensures (name, p) in l'.maps <==> (name, p) in l.maps {
      assert l'.maps[(name, p)] == l.maps[(name, p)];
    }
  }

  lemma OthersAgree(r: Root, l: Ledger, r': Root, l': Ledger, name: string)
    requires Agrees(r, l) && r'.regions - {name} == r.regions - {name}
    requires forall n, p :: n != name ==> l'.maps[(n, p)] == l.maps[(n, p)]
    requires forall n :: n != name && n in l.places ==> n in l'.places && l'.places[n] == l.places[n]
    requires name in r'.regions <==> Mapped(l', name)
    requires name in r'.regions ==> RegionAgrees(r'.regions[name], l', name)
    ensures Agrees(r', l')
  {
    hide RegionAgrees, Mapped;
    forall n
      ensures n in r'.regions <==> Mapped(l', n)
      ensures n in r'.regions ==> RegionAgrees(r'.regions[n], l', n)
    {
      if n != name {
        assert n in r'.regions - {name} <==> n in r.regions - {name};
        if n in r'.regions {
          assert (r'.regions - {name})[n] == (r.regions - {name})[n];
          AgreesStill(r.regions[n], l, l', n);
        } else {
          AgreesStill(Region(0, 0, []), l, l', n);
        }
      }
    }
  }

  lemma AttachRegion(g: Region, l: Ledger, name: string, pid: nat)
    requires RegionAgrees(g, l, name)
    ensures var l' := l.(maps := l.maps + multiset{(name, pid)});
            RegionAgrees(g.(clients := g.clients + [pid]), l', name) && Mapped(l', name)
  {
    assert (name, pid) in (l.maps + multiset{(name, pid)});
  }

  lemma AttachAgrees(r: Root, l: Ledger, name: string, pid: nat, beyond: nat -> bool, need: nat)
    requires Agrees(r, l) && name in r.regions
    ensures Agrees(Create(r, beyond, name, pid, need), l.(maps := l.maps + multiset{(name, pid)}))
  {
    hide RegionAgrees, Mapped, Agrees, FirstFit, Marked;
    AgreesAt(r, l, name);
    AttachRegion(r.regions[name], l, name, pid);
    OthersAgree(r, l, Create(r, beyond, name, pid, need), l.(maps := l.maps + multiset{(name, pid)}), name);
  }

  lemma AgreesAt(r: Root, l: Ledger, name: string)
    requires Agrees(r, l)
    ensures name in r.regions <==> Mapped(l, name)
    ensures name in r.regions ==> RegionAgrees(r.regions[name], l, name)
  {
    hide RegionAgrees, Mapped;
  }

  lemma NewRegion(l: Ledger, name: string, pid: nat, need: nat, i: nat)
    requires !Mapped(l, name)
    ensures var l' := Ledger(l.maps + multiset{(name, pid)}, l.places[name := (i, need)]);
            RegionAgrees(Region(i, need, [pid]), l', name) && Mapped(l', name)
  {
    assert (name, pid) in (l.maps + multiset{(name, pid)});
    assert forall p :: (name, p) !in l.maps;
  }

  lemma NewAgrees(r: Root, l: Ledger, name: string, pid: nat, beyond: nat -> bool, need: nat, i: nat)
    requires Agrees(r, l) && name !in r.regions && FirstFree(r.bits, beyond, need, i)
    ensures Agrees(Create(r, beyond, name, pid, need),
                   Ledger(l.maps + multiset{(name, pid)}, l.places[name := (i, need)]))
  {
    hide RegionAgrees, Mapped, Agrees, Marked, FirstFit;
    AgreesAt(r, l, name);
    FirstFitIs(r.bits, beyond, need, 1);
    NewRegion(l, name, pid, need, i);
    OthersAgree(r, l, Create(r, beyond, name, pid, need),
                Ledger(l.maps + multiset{(name, pid)}, l.places[name := (i, need)]), name);
  }

  lemma LeaveRegion(g: Region, l: Ledger, name: string, pid: nat)
    requires RegionAgrees(g, l, name)
    ensures var l' := l.(maps := l.maps - multiset{(name, pid)});
            RegionAgrees(g.(clients := Without(g.clients, pid)), l', name)
  {
    WithoutCounts(g.clients, pid);
  }

  lemma UnmapAgrees(r: Root, l: Ledger, name: string, pid: nat)
    requires Agrees(r, l)
    ensures Agrees(Unmap(r, name, pid), l.(maps := l.maps - multiset{(name, pid)}))
  {
    hide RegionAgrees, Mapped, Agrees, Marked, Without;
    var l' := l.(maps := l.maps - multiset{(name, pid)});
    AgreesAt(r, l, name);
    if name in r.regions {
      var g := r.regions[name];
      var left := g.(clients := Without(g.clients, pid));
      LeaveRegion(g, l, name, pid);
      MappedOf(left, l', name);
      OthersAgree(r, l, Unmap(r, name, pid), l', name);
    } else {
      NobodyLeaves(l, name, pid);
    }
  }

  lemma NobodyLeaves(l: Ledger, name: string, pid: nat)
    requires !Mapped(l, name)
    ensures l.maps - multiset{(name, pid)} == l.maps
  {
    assert (name, pid) !in l.maps;
  }

  lemma FitIsFirst(bits: seq<bool>, beyond: nat -> bool, need: nat)
    ensures match FirstFit(bits, beyond, need, 1)
            case None => forall i :: !FirstFree(bits, beyond, need, i)
            case Some(i) => FirstFree(bits, beyond, need, i)
  {
    FirstFitIs(bits, beyond, need, 1);
  }

  lemma StepAgrees(r: Root, l: Ledger, q: Request, l': Ledger)
    requires Agrees(r, l) && Entered(l, r.bits, q, l')
    ensures Agrees(Step(r, q), l')
  {
    match q
    case Creating(name, pid, need, beyond) =>
      if Mapped(l, name) {
        AttachAgrees(r, l, name, pid, beyond, need);
      } else if exists i :: FirstFree(r.bits, beyond, need, i) {
        var i :| FirstFree(r.bits, beyond, need, i)
          && l' == Ledger(l.maps + multiset{(name, pid)}, l.places[name := (i, need)]);
        NewAgrees(r, l, name, pid, beyond, need, i);
      } else {
        FitIsFirst(r.bits, beyond, need);
      }
    case Unmapping(name, pid) => UnmapAgrees(r, l, name, pid);
  }

  // Over any run, good fits or bad: a region is known, with the first page and the pages of its
  // creation, if and only if some process has created or attached to it more often than it has unmapped
  // it; and each process is among its clients just as often as that.
  lemma {:induction false} MappedLives(states: seq<Root>, ledgers: seq<Ledger>, qs: seq<Request>)
    requires |states| == |qs| + 1 == |ledgers|
    requires states[0].regions == map[] && ledgers[0].maps == multiset{}
    requires forall i :: 0 <= i < |qs| ==>
               states[i + 1] == Step(states[i], qs[i]) && Entered(ledgers[i], states[i].bits, qs[i], ledgers[i + 1])
    ensures Agrees(states[|qs|], ledgers[|qs|])
    decreases |qs|
  {
    var k := |qs|;
    if k > 0 {
      MappedLives(states[..k], ledgers[..k], qs[..k - 1]);
      assert states[k - 1 + 1] == Step(states[k - 1], qs[k - 1]);
      StepAgrees(states[k - 1], ledgers[k - 1], qs[k - 1], ledgers[k]);
    }
  }

  // The ledger of a run can always be kept.
  lemma LedgerGoesOn(l: Ledger, bits: seq<bool>, q: Request) returns (l': Ledger)
    ensures Entered(l, bits, q, l')
  {
    match q
    case Creating(name, pid, need, beyond) =>
      if Mapped(l, name) {
        l' := l.(maps := l.maps + multiset{(name, pid)});
      } else if i :| FirstFree(bits, beyond, need, i) {
        l' := Ledger(l.maps + multiset{(name, pid)}, l.places[name := (i, need)]);
      } else {
        l' := l;
      }
    case Unmapping(name, pid) => l' := l.(maps := l.maps - multiset{(name, pid)});
  }
}
