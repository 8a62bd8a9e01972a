/**
  load_classes: loads every entry point registered under a name, keeps
  the loaded objects (optionally only the subclasses of a given class)
  and skips every entry point whose loading or subclass check raises.

  The entry points iter_entry_points yields are given as a sequence; what
  EntryPoint.load() does and what issubclass answers are given as data.
 */
module Loader {
  import opened Wrappers

  /** What EntryPoint.load() did: returned an object, or raised. */
  datatype LoadOutcome<T> = Loaded(obj: T) | Fails

  datatype EntryPoint<T> = EntryPoint(name: string, load: LoadOutcome<T>)

  /** What issubclass(obj, superclass) did: True, False, or raised. */
  datatype SubclassAnswer = IsSubclass | NotSubclass | CheckRaises

  /** An entry point whose object ends up in the result. */
  predicate Admits<T, C>(ep: EntryPoint<T>, superclass: Option<C>, isSub: (T, C) -> SubclassAnswer) {
    ep.load.Loaded? && (superclass.None? || isSub(ep.load.obj, superclass.value) == IsSubclass)
  }

  /** The objects of the admitted entry points, in iteration order. */
  function Kept<T, C>(eps: seq<EntryPoint<T>>, superclass: Option<C>, isSub: (T, C) -> SubclassAnswer): (kept: seq<T>)
    ensures |kept| <= |eps|
  {
    if eps == [] then []
    else
      var ep := eps[|eps| - 1];
      Kept(eps[..|eps| - 1], superclass, isSub) + (if Admits(ep, superclass, isSub) then [ep.load.obj] else [])
  }

  /**
    load_classes: one pass over the entry points, appending each object
    that loaded and passed the subclass filter; an exception from either
    step drops that entry point and the loop goes on with the next.
   */
  method LoadClasses<T, C>(entryPoints: seq<EntryPoint<T>>, superclass: Option<C>, isSub: (T, C) -> SubclassAnswer)
    returns (classes: seq<T>)
    ensures classes == Kept(entryPoints, superclass, isSub)
  {
    classes := [];
    for i := 0 to |entryPoints|
      invariant classes == Kept(entryPoints[..i], superclass, isSub)
    {
      var entryPoint := entryPoints[i];
      assert entryPoints[..i + 1][..i] == entryPoints[..i];
      match entryPoint.load
      case Fails =>
      case Loaded(obj) =>
        if superclass.None? {
          classes := classes + [obj];
        } else {
          match isSub(obj, superclass.value)
          case IsSubclass => classes := classes + [obj];
          case NotSubclass =>
          case CheckRaises =>
        }
    }
    assert entryPoints[..|entryPoints|] == entryPoints;
  }

  /** Processing two runs of entry points one after the other. */
  lemma {:induction false} KeptAppend<T, C>(a: seq<EntryPoint<T>>, b: seq<EntryPoint<T>>, superclass: Option<C>, isSub: (T, C) -> SubclassAnswer)
    ensures Kept(a + b, superclass, isSub) == Kept(a, superclass, isSub) + Kept(b, superclass, isSub)
    decreases |b|
  {
    if b == [] {
      assert a + b == a;
    } else {
      var b' := b[..|b| - 1];
      assert (a + b)[..|a + b| - 1] == a + b';
      assert (a + b)[|a + b| - 1] == b[|b| - 1];
      KeptAppend(a, b', superclass, isSub);
    }
  }

  /**
    The result is the admitted entry points' objects in iteration order:
    `idx` lists, strictly increasing, exactly the positions of the
    admitted entry points, and the k-th object kept comes from idx[k].
   */
  lemma {:induction false} KeptIsAdmittedSubsequence<T, C>(eps: seq<EntryPoint<T>>, superclass: Option<C>, isSub: (T, C) -> SubclassAnswer)
    returns (idx: seq<nat>)
    ensures |idx| == |Kept(eps, superclass, isSub)|
    ensures forall k :: 0 <= k < |idx| ==>
      idx[k] < |eps| && Admits(eps[idx[k]], superclass, isSub) &&
      Kept(eps, superclass, isSub)[k] == eps[idx[k]].load.obj
    ensures forall k, l :: 0 <= k < l < |idx| ==> idx[k] < idx[l]
    ensures forall i :: 0 <= i < |eps| && Admits(eps[i], superclass, isSub) ==> i in idx
  {
    if eps == [] {
      idx := [];
    } else {
      var n := |eps| - 1;
      var pre := eps[..n];
      var idx' := KeptIsAdmittedSubsequence(pre, superclass, isSub);
      assert forall i :: 0 <= i < n ==> pre[i] == eps[i];
      if Admits(eps[n], superclass, isSub) {
        idx := idx' + [n];
      } else {
        idx := idx';
      }
    }
  }

  /** An object is in the result exactly when some admitted entry point loaded it. */
  lemma KeptMembership<T, C>(eps: seq<EntryPoint<T>>, superclass: Option<C>, isSub: (T, C) -> SubclassAnswer, x: T)
    ensures x in Kept(eps, superclass, isSub) <==>
      exists i :: 0 <= i < |eps| && Admits(eps[i], superclass, isSub) && eps[i].load.obj == x
  {
    var kept := Kept(eps, superclass, isSub);
    var idx := KeptIsAdmittedSubsequence(eps, superclass, isSub);
    if x in kept {
      var k :| 0 <= k < |kept| && kept[k] == x;
      assert Admits(eps[idx[k]], superclass, isSub) && eps[idx[k]].load.obj == x;
    }
    if exists i :: 0 <= i < |eps| && Admits(eps[i], superclass, isSub) && eps[i].load.obj == x {
      var i :| 0 <= i < |eps| && Admits(eps[i], superclass, isSub) && eps[i].load.obj == x;
      var k :| 0 <= k < |idx| && idx[k] == i;
      assert kept[k] == x;
    }
  }

  /**
    An entry point whose load() raises contributes nothing, and the entry
    points after it are processed as if it were absent.
   */
  lemma FailedLoadSkipped<T, C>(a: seq<EntryPoint<T>>, name: string, b: seq<EntryPoint<T>>, superclass: Option<C>, isSub: (T, C) -> SubclassAnswer)
    ensures Kept(a + [EntryPoint(name, Fails)] + b, superclass, isSub) == Kept(a + b, superclass, isSub)
  {
    var ep := EntryPoint(name, Fails);
    KeptAppend(a + [ep], b, superclass, isSub);
    KeptAppend(a, [ep], superclass, isSub);
    KeptAppend(a, b, superclass, isSub);
    assert [ep][..0] == [];
  }

  /** A subclass check that raises drops the object just as a failed load does. */
  lemma RaisingCheckLikeFailedLoad<T, C>(a: seq<EntryPoint<T>>, name: string, obj: T, b: seq<EntryPoint<T>>, c: C, isSub: (T, C) -> SubclassAnswer)
    requires isSub(obj, c) == CheckRaises
    ensures Kept(a + [EntryPoint(name, Loaded(obj))] + b, Some(c), isSub) ==
            Kept(a + [EntryPoint(name, Fails)] + b, Some(c), isSub)
  {
    var ep := EntryPoint(name, Loaded(obj));
    var failed := EntryPoint(name, Fails);
    KeptAppend(a + [ep], b, Some(c), isSub);
    KeptAppend(a, [ep], Some(c), isSub);
    KeptAppend(a + [failed], b, Some(c), isSub);
    KeptAppend(a, [failed], Some(c), isSub);
    assert [ep][..0] == [] && [failed][..0] == [];
  }

  /**
    Without a superclass the filter is only "did load() succeed": the kept
    objects come, in order, from exactly the entry points that loaded,
    whatever issubclass would say.
   */
  lemma NoSuperclassKeepsAllLoaded<T, C>(eps: seq<EntryPoint<T>>, isSub: (T, C) -> SubclassAnswer)
    returns (idx: seq<nat>)
    ensures |idx| == |Kept(eps, None, isSub)|
    ensures forall k :: 0 <= k < |idx| ==>
      idx[k] < |eps| && eps[idx[k]].load.Loaded? && Kept(eps, None, isSub)[k] == eps[idx[k]].load.obj
    ensures forall k, l :: 0 <= k < l < |idx| ==> idx[k] < idx[l]
    ensures forall i :: 0 <= i < |eps| && eps[i].load.Loaded? ==> i in idx
  {
    idx := KeptIsAdmittedSubsequence(eps, None, isSub);
  }

  /** When every entry point loads and there is no superclass, every object is kept, in order. */
  lemma {:induction false} AllLoadedAllKept<T, C>(eps: seq<EntryPoint<T>>, isSub: (T, C) -> SubclassAnswer)
    requires forall i :: 0 <= i < |eps| ==> eps[i].load.Loaded?
    ensures Kept(eps, None, isSub) == seq(|eps|, i requires 0 <= i < |eps| => eps[i].load.obj)
  {
    if eps != [] {
      var pre := eps[..|eps| - 1];
      AllLoadedAllKept(pre, isSub);
    }
  }

  /** Entry point names play no part: only the load outcomes decide the result. */
  lemma {:induction false} KeptIgnoresNames<T, C>(eps: seq<EntryPoint<T>>, other: seq<EntryPoint<T>>, superclass: Option<C>, isSub: (T, C) -> SubclassAnswer)
    requires |eps| == |other|
    requires forall i :: 0 <= i < |eps| ==> eps[i].load == other[i].load
    ensures Kept(eps, superclass, isSub) == Kept(other, superclass, isSub)
  {
    if eps != [] {
      KeptIgnoresNames(eps[..|eps| - 1], other[..|other| - 1], superclass, isSub);
    }
  }

  /** The classes of the load_classes tests. */
  datatype TestClass = EP1 | EP2 | EP3 | MySuperClass

  function TestIsSubclass(obj: TestClass, c: TestClass): SubclassAnswer {
    if obj == c || (c == MySuperClass && obj != EP2) then IsSubclass else NotSubclass
  }

  /** Two entry points named 'ep1' each count; the fourth entry point fails to load. */
  lemma FourEntryPointsOneFailing()
    ensures Kept([EntryPoint("ep1", Loaded(EP1)), EntryPoint("ep1", Loaded(EP2)),
                  EntryPoint("ep3", Loaded(EP3)), EntryPoint("ep4", Fails)],
                 None, TestIsSubclass) == [EP1, EP2, EP3]
  {
    var e1, e2, e3, e4 := EntryPoint("ep1", Loaded(EP1)), EntryPoint("ep1", Loaded(EP2)),
                          EntryPoint("ep3", Loaded(EP3)), EntryPoint("ep4", Fails);
    assert [e1, e2, e3, e4][..3] == [e1, e2, e3] && [e1, e2, e3][..2] == [e1, e2];
    assert [e1, e2][..1] == [e1] && [e1][..0] == [];
    assert Kept([e1], None, TestIsSubclass) == [EP1];
    assert Kept([e1, e2], None, TestIsSubclass) == [EP1, EP2];
    assert Kept([e1, e2, e3], None, TestIsSubclass) == [EP1, EP2, EP3];
  }

  /** Filtering on MySuperClass drops EP2, which does not derive from it. */
  lemma SuperclassFilter()
    ensures Kept([EntryPoint("ep1", Loaded(EP1)), EntryPoint("ep1", Loaded(EP2)),
                  EntryPoint("ep3", Loaded(EP3))],
                 Some(MySuperClass), TestIsSubclass) == [EP1, EP3]
  {
    var e1, e2, e3 := EntryPoint("ep1", Loaded(EP1)), EntryPoint("ep1", Loaded(EP2)),
                      EntryPoint("ep3", Loaded(EP3));
    assert [e1, e2, e3][..2] == [e1, e2] && [e1, e2][..1] == [e1] && [e1][..0] == [];
    assert Kept([e1], Some(MySuperClass), TestIsSubclass) == [EP1];
    assert Kept([e1, e2], Some(MySuperClass), TestIsSubclass) == [EP1];
  }
}
