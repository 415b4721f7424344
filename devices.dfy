/** Devices reported by the driver, and the name-based reduction of two enumerations
    performed by each discovery cycle (WebcamDiscoveryService.run, lines 169-198). */
module Devices {
  import opened Wrappers
  import opened Sequences

  /** A device as the driver reports it. Two enumerations' devices are "the same device"
      iff their names are equal; `instance` stands for the identity of the fresh object
      the driver returns on every call, which the reduction ignores. */
  datatype Device = Device(name: string, instance: nat)

  function Names(ds: seq<Device>): seq<string>
  {
    seq(|ds|, i requires 0 <= i < |ds| => ds[i].name)
  }

  lemma NameOfMember(d: Device, ds: seq<Device>)
    requires d in ds
    ensures d.name in Names(ds)
  {
    var i :| 0 <= i < |ds| && ds[i] == d;
    assert Names(ds)[i] == d.name;
  }

  /** Index of the first device called `name`, as the inner scan of the reduction finds it. */
  function FirstNamed(ds: seq<Device>, name: string): (r: Option<nat>)
    ensures r.Some? ==> r.value < |ds| && ds[r.value].name == name
    ensures r.Some? ==> forall k :: 0 <= k < r.value ==> ds[k].name != name
    ensures r.None? ==> forall k :: 0 <= k < |ds| ==> ds[k].name != name
  {
    if ds == [] then None
    else if ds[0].name == name then Some(0)
    else match FirstNamed(ds[1..], name)
      case None => None
      case Some(k) => Some(k + 1)
  }

  /** The reduction, as a function: each old device, in order, cancels the first remaining
      new device with its name; the result is (what is left of the old list, what is left
      of the new list). */
  function Reduction(olds: seq<Device>, news: seq<Device>): (seq<Device>, seq<Device>)
    decreases |olds|
  {
    if olds == [] then ([], news)
    else match FirstNamed(news, olds[0].name)
      case None =>
        var rest := Reduction(olds[1..], news);
        ([olds[0]] + rest.0, rest.1)
      case Some(j) => Reduction(olds[1..], news[..j] + news[j + 1..])
  }

  /** The reduction loop of run() on working copies of the two lists: the outer loop walks
      `oldones`, the inner loop scans `newones` from its start, and on the first name match
      one element is removed from each list and the scan stops. */
  method Reduce(tmpold: seq<Device>, tmpnew: seq<Device>) returns (oldones: seq<Device>, newones: seq<Device>)
    ensures (oldones, newones) == Reduction(tmpold, tmpnew)
    ensures |tmpold| - |oldones| == |tmpnew| - |newones|
    ensures IsSubsequence(oldones, tmpold) && IsSubsequence(newones, tmpnew)
    ensures forall d, e :: d in oldones && e in newones ==> d.name != e.name
  {
    oldones, newones := tmpold, tmpnew;
    var i := 0;
    assert oldones[..i] == [] && oldones[i..] == oldones;
    while i < |oldones|
      invariant i <= |oldones|
      invariant Reduction(tmpold, tmpnew).0 == oldones[..i] + Reduction(oldones[i..], newones).0
      invariant Reduction(tmpold, tmpnew).1 == Reduction(oldones[i..], newones).1
      decreases |oldones| - i
    {
      var od := oldones[i];
      var found, j := ScanNamed(newones, od.name);
      if found {
        ReductionMatchStep(oldones, newones, i, j);
        newones := newones[..j] + newones[j + 1..];
        oldones := oldones[..i] + oldones[i + 1..];
      } else {
        ReductionKeepStep(oldones, newones, i);
        i := i + 1;
      }
    }
    assert oldones[..i] == oldones && oldones[i..] == [];
    assert Reduction(oldones[i..], newones) == ([], newones);
    assert oldones[..i] + [] == oldones;
    ReductionProperties(tmpold, tmpnew);
  }

  /** The inner loop of the reduction: scan `newones` from its start for the first device
      called `name`. */
  method ScanNamed(newones: seq<Device>, name: string) returns (found: bool, j: nat)
    ensures found <==> FirstNamed(newones, name).Some?
    ensures found ==> FirstNamed(newones, name) == Some(j)
  {
    j := 0;
    found := false;
    while j < |newones|
      invariant j <= |newones|
      invariant forall k :: 0 <= k < j ==> newones[k].name != name
    {
      if newones[j].name == name {
        found := true;
        return;
      }
      j := j + 1;
    }
  }

  /** An old device that cancels the new device at `j` is dropped from both lists. */
  lemma ReductionMatchStep(oldones: seq<Device>, newones: seq<Device>, i: nat, j: nat)
    requires i < |oldones| && FirstNamed(newones, oldones[i].name) == Some(j)
    ensures var oldones', newones' := oldones[..i] + oldones[i + 1..], newones[..j] + newones[j + 1..];
      oldones'[..i] == oldones[..i] && Reduction(oldones[i..], newones) == Reduction(oldones'[i..], newones')
  {
    var rest := oldones[i..];
    assert rest[0] == oldones[i] && rest[1..] == oldones[i + 1..];
    assert (oldones[..i] + oldones[i + 1..])[i..] == oldones[i + 1..];
  }

  /** An old device with no namesake among the new devices stays in the old list. */
  lemma ReductionKeepStep(oldones: seq<Device>, newones: seq<Device>, i: nat)
    requires i < |oldones| && FirstNamed(newones, oldones[i].name) == None
    ensures oldones[..i] + Reduction(oldones[i..], newones).0 == oldones[..i + 1] + Reduction(oldones[i + 1..], newones).0
    ensures Reduction(oldones[i..], newones).1 == Reduction(oldones[i + 1..], newones).1
  {
    var rest := oldones[i..];
    assert rest[0] == oldones[i] && rest[1..] == oldones[i + 1..];
    assert oldones[..i + 1] == oldones[..i] + [oldones[i]];
  }

  /** All that the reduction guarantees, gathered for its callers. */
  lemma ReductionProperties(olds: seq<Device>, news: seq<Device>)
    ensures var (oldones, newones) := Reduction(olds, news);
      && |olds| - |oldones| == |news| - |newones|
      && IsSubsequence(oldones, olds) && IsSubsequence(newones, news)
      && forall d, e :: d in oldones && e in newones ==> d.name != e.name
  {
    ReductionBalance(olds, news);
    ReductionKeepsOrder(olds, news);
    ReductionDisjoint(olds, news);
  }

  /** Each match removes one element from each list. */
  lemma {:induction false} ReductionBalance(olds: seq<Device>, news: seq<Device>)
    ensures |Reduction(olds, news).0| <= |olds|
    ensures |olds| - |Reduction(olds, news).0| == |news| - |Reduction(olds, news).1|
    decreases |olds|
  {
    if olds != [] {
      match FirstNamed(news, olds[0].name)
      case None =>
        ReductionBalance(olds[1..], news);
      case Some(j) =>
        ReductionBalance(olds[1..], news[..j] + news[j + 1..]);
    }
  }

  /** Both leftovers are order-preserving subsequences of their inputs. */
  lemma {:induction false} ReductionKeepsOrder(olds: seq<Device>, news: seq<Device>)
    ensures IsSubsequence(Reduction(olds, news).0, olds)
    ensures IsSubsequence(Reduction(olds, news).1, news)
    decreases |olds|
  {
    if olds == [] {
      SubsequenceOfItself(news);
    } else {
      assert olds == [olds[0]] + olds[1..];
      match FirstNamed(news, olds[0].name)
      case None =>
        ReductionKeepsOrder(olds[1..], news);
        SubsequenceCons(olds[0], Reduction(olds[1..], news).0, olds[1..]);
      case Some(j) =>
        var news' := news[..j] + news[j + 1..];
        ReductionKeepsOrder(olds[1..], news');
        SubsequenceOfRemoval(Reduction(olds[1..], news').1, news, j);
    }
  }

  /** The reduction is a multiset difference on names: a name left over in the old list
      occurs there as many times more than in the new list, and vice versa. */
  lemma {:induction false} ReductionCancelsNames(olds: seq<Device>, news: seq<Device>)
    ensures multiset(Names(Reduction(olds, news).0)) == multiset(Names(olds)) - multiset(Names(news))
    ensures multiset(Names(Reduction(olds, news).1)) == multiset(Names(news)) - multiset(Names(olds))
    decreases |olds|
  {
    if olds == [] {
      assert Names(olds) == [];
    } else {
      var x := olds[0].name;
      var A := multiset(Names(olds[1..]));
      var B := multiset(Names(news));
      assert olds == [olds[0]] + olds[1..];
      NamesCons(olds[0], olds[1..]);
      match FirstNamed(news, x)
      case None =>
        var rest := Reduction(olds[1..], news);
        ReductionCancelsNames(olds[1..], news);
        assert x !in Names(news);
        NamesCons(olds[0], rest.0);
        UnmatchedNameAlgebra(x, A, B);
      case Some(j) =>
        var news' := news[..j] + news[j + 1..];
        ReductionCancelsNames(olds[1..], news');
        NamesOfRemoval(news, j);
        assert Names(news)[j] == x;
        MatchedNameAlgebra(x, A, B);
    }
  }

  lemma NamesCons(d: Device, ds: seq<Device>)
    ensures multiset(Names([d] + ds)) == multiset{d.name} + multiset(Names(ds))
  {
    assert Names([d] + ds) == [d.name] + Names(ds);
  }

  lemma NamesOfRemoval(ds: seq<Device>, j: nat)
    requires j < |ds|
    ensures multiset(Names(ds[..j] + ds[j + 1..])) == multiset(Names(ds)) - multiset{ds[j].name}
    ensures ds[j].name in multiset(Names(ds))
  {
    assert Names(ds[..j] + ds[j + 1..]) == Names(ds)[..j] + Names(ds)[j + 1..];
    assert Names(ds)[j] == ds[j].name;
    MultisetOfRemoval(Names(ds), j);
  }

  lemma UnmatchedNameAlgebra(x: string, A: multiset<string>, B: multiset<string>)
    requires x !in B
    ensures multiset{x} + (A - B) == (multiset{x} + A) - B
    ensures B - A == B - (multiset{x} + A)
  {
    forall y ensures (multiset{x} + (A - B))[y] == ((multiset{x} + A) - B)[y] {
      if y == x { assert B[y] == 0; }
    }
    forall y ensures (B - A)[y] == (B - (multiset{x} + A))[y] {
      if y == x { assert B[y] == 0; }
    }
  }

  lemma MatchedNameAlgebra(x: string, A: multiset<string>, B: multiset<string>)
    requires x in B
    ensures A - (B - multiset{x}) == (multiset{x} + A) - B
    ensures (B - multiset{x}) - A == B - (multiset{x} + A)
  {
    forall y ensures (A - (B - multiset{x}))[y] == ((multiset{x} + A) - B)[y] {
      if y == x { assert B[y] >= 1; }
    }
    forall y ensures ((B - multiset{x}) - A)[y] == (B - (multiset{x} + A))[y] {
      if y == x { assert B[y] >= 1; }
    }
  }

  /** No name is left over in both lists. */
  lemma ReductionDisjoint(olds: seq<Device>, news: seq<Device>)
    ensures forall d, e :: d in Reduction(olds, news).0 && e in Reduction(olds, news).1 ==> d.name != e.name
  {
    var (oldones, newones) := Reduction(olds, news);
    ReductionCancelsNames(olds, news);
    forall d, e | d in oldones && e in newones
      ensures d.name != e.name
    {
      NameOfMember(d, oldones);
      NameOfMember(e, newones);
      var A, B := multiset(Names(olds)), multiset(Names(news));
      assert multiset(Names(oldones))[d.name] > 0 && multiset(Names(newones))[e.name] > 0;
      assert A[d.name] > B[d.name] && B[e.name] > A[e.name];
    }
  }

  /** With unique names in the old list, a left-over old device's name is not reported at
      all by the new enumeration (and symmetrically for the new list). */
  lemma ReductionLeftoversAreAbsent(olds: seq<Device>, news: seq<Device>)
    ensures Distinct(Names(olds)) ==>
      forall d :: d in Reduction(olds, news).0 ==> d.name !in Names(news)
    ensures Distinct(Names(news)) ==>
      forall e :: e in Reduction(olds, news).1 ==> e.name !in Names(olds)
  {
    var (oldones, newones) := Reduction(olds, news);
    ReductionCancelsNames(olds, news);
    forall d | Distinct(Names(olds)) && d in oldones
      ensures d.name !in Names(news)
    {
      NameOfMember(d, oldones);
      DistinctOccursOnce(Names(olds), d.name);
      assert multiset(Names(oldones))[d.name] > 0;
      assert multiset(Names(news))[d.name] == 0;
    }
    forall e | Distinct(Names(news)) && e in newones
      ensures e.name !in Names(olds)
    {
      NameOfMember(e, newones);
      DistinctOccursOnce(Names(news), e.name);
      assert multiset(Names(newones))[e.name] > 0;
      assert multiset(Names(olds))[e.name] == 0;
    }
  }
}
