/**
 * The convention registry of a serialization domain: an ordered list of named
 * convention-pack containers, each guarded by a filter on types, from which the
 * effective conventions for a type are looked up.
 *
 * Types are the abstract type parameter `T`, convention packs the abstract type
 * parameter `P`, and a filter a total function `T -> bool`.
 */
module Conventions {
  import opened Wrappers
  import opened Errors

  /** The name of the built-in container holding the default conventions. */
  const DefaultsName := "__defaults__"
  /** The name of the built-in container holding the attribute conventions; its packs are looked up last. */
  const AttributesName := "__attributes__"

  /** One registered pack with its name and the filter choosing the types it applies to. */
  datatype Container<!T, P> = Container(name: string, pack: P, filter: T -> bool)

  /** The filter the built-in containers are registered with. */
  function AcceptAll<T>(t: T): bool { true }

  /** The list a fresh registry holds: the defaults first, then the attribute conventions. */
  function InitialContainers<T, P>(defaults: P, attributes: P): seq<Container<T, P>>
  {
    [Container(DefaultsName, defaults, AcceptAll), Container(AttributesName, attributes, AcceptAll)]
  }

  /**
   * The containers of `cs` whose filter accepts `t` and that are (when `attributes`)
   * or are not (otherwise) named `AttributesName`, in registration order.
   */
  function Matching<T, P>(cs: seq<Container<T, P>>, t: T, attributes: bool): (r: seq<Container<T, P>>)
    ensures |r| <= |cs|
  {
    if cs == [] then []
    else
      var last := cs[|cs| - 1];
      Matching(cs[..|cs| - 1], t, attributes)
      + (if last.filter(t) && (last.name == AttributesName) == attributes then [last] else [])
  }

  /** The containers a lookup of `t` uses, in the order their packs are appended. */
  function Selected<T, P>(cs: seq<Container<T, P>>, t: T): seq<Container<T, P>>
  {
    Matching(cs, t, false) + Matching(cs, t, true)
  }

  /** The packs of a sequence of containers, position by position. */
  function PacksOf<T, P>(cs: seq<Container<T, P>>): (r: seq<P>)
    ensures |r| == |cs|
    ensures forall i :: 0 <= i < |cs| ==> r[i] == cs[i].pack
  {
    seq(|cs|, i requires 0 <= i < |cs| => cs[i].pack)
  }

  /** The packs the effective convention pack for `t` is built from, in order. */
  function EffectivePacks<T, P>(cs: seq<Container<T, P>>, t: T): (r: seq<P>)
    ensures |r| <= |cs|
  {
    SelectedShorter(cs, t);
    PacksOf(Selected(cs, t))
  }

  /** No container is scanned into both groups: a lookup uses each registered container at most once. */
  lemma {:induction false} SelectedShorter<T, P>(cs: seq<Container<T, P>>, t: T)
    ensures |Selected(cs, t)| <= |cs|
    decreases |cs|
  {
    if cs != [] {
      SelectedShorter(cs[..|cs| - 1], t);
    }
  }

  /** `cs` without any container named `name`, the others in their original order. */
  function WithoutName<T, P>(cs: seq<Container<T, P>>, name: string): (r: seq<Container<T, P>>)
    ensures |r| <= |cs|
  {
    if cs == [] then []
    else
      var last := cs[|cs| - 1];
      WithoutName(cs[..|cs| - 1], name) + (if last.name == name then [] else [last])
  }

  /** `a` is `b` with some elements left out, the rest in their original order. */
  ghost predicate IsSubsequence<X>(a: seq<X>, b: seq<X>)
    decreases |b|
  {
    if a == [] then true
    else if b == [] then false
    else if a[|a| - 1] == b[|b| - 1] then IsSubsequence(a[..|a| - 1], b[..|b| - 1])
    else IsSubsequence(a, b[..|b| - 1])
  }

  class ConventionRegistryDomain<T, P> {
    /** The registered containers, in registration order. */
    var containers: seq<Container<T, P>>

    /** A fresh registry holds the defaults container, then the attributes container. */
    constructor (defaults: P, attributes: P)
      ensures containers == InitialContainers(defaults, attributes)
    {
      containers := [];
      new;
      var _ := Register(Some(DefaultsName), Some(defaults), Some(AcceptAll));
      var _ := Register(Some(AttributesName), Some(attributes), Some(AcceptAll));
    }

    /**
     * Looks up the packs that apply to `classType`: those of every container whose filter
     * accepts it, in registration order, except that the attribute packs come last.
     */
    method Lookup(classType: Option<T>) returns (r: Result<seq<P>, Error>)
      ensures classType.None? ==> r == Failure(ArgumentNull("type"))
      ensures classType.Some? ==> r == Success(EffectivePacks(containers, classType.value))
    {
      if classType.None? {
        return Failure(ArgumentNull("type"));
      }
      var t := classType.value;
      var pack: seq<P> := [];
      var attributePacks: seq<P> := [];
      for i := 0 to |containers|
        invariant pack == PacksOf(Matching(containers[..i], t, false))
        invariant attributePacks == PacksOf(Matching(containers[..i], t, true))
      {
        assert containers[..i + 1][..i] == containers[..i];
        var container := containers[i];
        if container.filter(t) {
          if container.name == AttributesName {
            attributePacks := attributePacks + [container.pack];
          } else {
            pack := pack + [container.pack];
          }
        }
      }
      assert containers[..|containers|] == containers;
      ghost var front := pack;
      for j := 0 to |attributePacks|
        invariant pack == front + attributePacks[..j]
      {
        assert attributePacks[..j + 1] == attributePacks[..j] + [attributePacks[j]];
        pack := pack + [attributePacks[j]];
      }
      assert attributePacks[..|attributePacks|] == attributePacks;
      PacksOfAppend(Matching(containers, t, false), Matching(containers, t, true));
      r := Success(pack);
    }

    /** Appends one container; a null argument throws and registers nothing. */
    method Register(name: Option<string>, conventions: Option<P>, filter: Option<T -> bool>)
      returns (r: Outcome<Error>)
      modifies this
      ensures name.None? ==> r == Fail(ArgumentNull("name"))
      ensures name.Some? && conventions.None? ==> r == Fail(ArgumentNull("conventions"))
      ensures name.Some? && conventions.Some? && filter.None? ==> r == Fail(ArgumentNull("filter"))
      ensures r.Pass? <==> name.Some? && conventions.Some? && filter.Some?
      ensures r.Fail? ==> containers == old(containers)
      ensures r.Pass? ==>
        containers == old(containers) + [Container(name.value, conventions.value, filter.value)]
    {
      if name.None? {
        return Fail(ArgumentNull("name"));
      }
      if conventions.None? {
        return Fail(ArgumentNull("conventions"));
      }
      if filter.None? {
        return Fail(ArgumentNull("filter"));
      }
      var container := Container(name.value, conventions.value, filter.value);
      containers := containers + [container];
      r := Pass;
    }

    /** Removes every container named `name`; a null name throws and removes nothing. */
    method Remove(name: Option<string>) returns (r: Outcome<Error>)
      modifies this
      ensures name.None? ==> r == Fail(ArgumentNull("name")) && containers == old(containers)
      ensures name.Some? ==> r == Pass && containers == WithoutName(old(containers), name.value)
    {
      if name.None? {
        return Fail(ArgumentNull("name"));
      }
      containers := WithoutName(containers, name.value);
      r := Pass;
    }
  }

  lemma PacksOfAppend<T, P>(a: seq<Container<T, P>>, b: seq<Container<T, P>>)
    ensures PacksOf(a + b) == PacksOf(a) + PacksOf(b)
  {
  }

  /** Both containers of a fresh registry apply to every type, and a lookup yields the defaults, then the attributes. */
  lemma {:induction false} InitialLookup<T, P>(defaults: P, attributes: P, t: T)
    ensures forall c :: c in InitialContainers<T, P>(defaults, attributes) ==> c.filter(t)
    ensures EffectivePacks(InitialContainers(defaults, attributes), t) == [defaults, attributes]
  {
    var d := Container(DefaultsName, defaults, AcceptAll);
    var a := Container(AttributesName, attributes, AcceptAll);
    assert DefaultsName[2] != AttributesName[2];
    assert d.name != AttributesName && d.filter(t) && a.filter(t);
    assert [d, a][..1] == [d] && [d][..0] == [];
    assert Matching([d], t, false) == [d];
    assert Matching([d], t, true) == [];
    assert Selected([d, a], t) == [d, a];
  }

  /**
   * A container occurs in `Matching(cs, t, attributes)` exactly as often as in `cs`
   * when it passes both tests, and not at all otherwise.
   */
  lemma {:induction false} MatchingMultiplicity<T, P>(cs: seq<Container<T, P>>, t: T, attributes: bool, c: Container<T, P>)
    ensures multiset(Matching(cs, t, attributes))[c]
         == if c.filter(t) && (c.name == AttributesName) == attributes then multiset(cs)[c] else 0
  {
    if cs != [] {
      var init := cs[..|cs| - 1];
      assert cs == init + [cs[|cs| - 1]];
      MatchingMultiplicity(init, t, attributes, c);
    }
  }

  /** Every container in `Matching(cs, t, attributes)` comes from `cs` and passes both tests. */
  lemma {:induction false} MatchingElements<T, P>(cs: seq<Container<T, P>>, t: T, attributes: bool)
    ensures forall c :: c in Matching(cs, t, attributes) ==>
      c in cs && c.filter(t) && (c.name == AttributesName) == attributes
  {
    forall c | c in Matching(cs, t, attributes)
      ensures c in cs && c.filter(t) && (c.name == AttributesName) == attributes
    {
      MatchingMultiplicity(cs, t, attributes, c);
    }
  }

  /** Each group of a lookup keeps registration order. */
  lemma {:induction false} MatchingIsSubsequence<T, P>(cs: seq<Container<T, P>>, t: T, attributes: bool)
    ensures IsSubsequence(Matching(cs, t, attributes), cs)
    decreases |cs|
  {
    if cs != [] {
      var init := cs[..|cs| - 1];
      var last := cs[|cs| - 1];
      assert cs == init + [last];
      MatchingIsSubsequence(init, t, attributes);
      var m := Matching(cs, t, attributes);
      if last.filter(t) && (last.name == AttributesName) == attributes {
        assert m == Matching(init, t, attributes) + [last];
        assert m[..|m| - 1] == Matching(init, t, attributes) && m[|m| - 1] == last;
      } else {
        assert m == Matching(init, t, attributes);
        SubsequenceExtend(Matching(init, t, attributes), init, last);
      }
    }
  }

  /** A subsequence of `b` is a subsequence of `b` extended by one element. */
  lemma {:induction false} SubsequenceExtend<X>(a: seq<X>, b: seq<X>, x: X)
    requires IsSubsequence(a, b)
    ensures IsSubsequence(a, b + [x])
    decreases |b|, 1
  {
    var bx := b + [x];
    assert bx[..|bx| - 1] == b;
    if a != [] && a[|a| - 1] == x {
      var init := a[..|a| - 1];
      SubsequenceDrop(a, b);
    }
  }

  /** Dropping the last element of a non-empty subsequence keeps it a subsequence. */
  lemma {:induction false} SubsequenceDrop<X>(a: seq<X>, b: seq<X>)
    requires a != [] && IsSubsequence(a, b)
    ensures IsSubsequence(a[..|a| - 1], b)
    decreases |b|, 0
  {
    var init := a[..|a| - 1];
    if b != [] {
      var binit := b[..|b| - 1];
      if a[|a| - 1] == b[|b| - 1] {
        if init != [] {
          SubsequenceExtend(init, binit, b[|b| - 1]);
          assert binit + [b[|b| - 1]] == b;
        }
      } else {
        SubsequenceDrop(a, binit);
        SubsequenceExtend(init, binit, b[|b| - 1]);
        assert binit + [b[|b| - 1]] == b;
      }
    }
  }

  /**
   * A lookup of `t` uses exactly the registered containers whose filter accepts `t`,
   * each as often as it is registered.
   */
  lemma {:induction false} LookupSelectsExactlyMatching<T, P>(cs: seq<Container<T, P>>, t: T)
    ensures forall c :: multiset(Selected(cs, t))[c] == if c.filter(t) then multiset(cs)[c] else 0
    ensures forall c :: c in Selected(cs, t) <==> c in cs && c.filter(t)
  {
    forall c
      ensures multiset(Selected(cs, t))[c] == if c.filter(t) then multiset(cs)[c] else 0
    {
      MatchingMultiplicity(cs, t, false, c);
      MatchingMultiplicity(cs, t, true, c);
    }
  }

  /**
   * The membership half of `LookupSelectsExactlyMatching`, on its own: a caller that
   * needs only membership then has no multiset facts in scope, which keeps its proof small.
   */
  lemma SelectedMembers<T, P>(cs: seq<Container<T, P>>, t: T)
    ensures forall c :: c in Selected(cs, t) <==> c in cs && c.filter(t)
  {
    LookupSelectsExactlyMatching(cs, t);
  }

  /** A pack is in the lookup of `t` iff some registered container holding it accepts `t`. */
  lemma {:induction false} LookupPacksExactlyMatching<T, P>(cs: seq<Container<T, P>>, t: T, p: P)
    ensures p in EffectivePacks(cs, t) <==> exists i :: 0 <= i < |cs| && cs[i].filter(t) && cs[i].pack == p
  {
    var s := Selected(cs, t);
    SelectedMembers(cs, t);
    if p in EffectivePacks(cs, t) {
      var k :| 0 <= k < |s| && PacksOf(s)[k] == p;
      assert s[k] in cs;
      var i :| 0 <= i < |cs| && cs[i] == s[k];
    }
    if i :| 0 <= i < |cs| && cs[i].filter(t) && cs[i].pack == p {
      assert cs[i] in s;
      var k :| 0 <= k < |s| && s[k] == cs[i];
      assert PacksOf(s)[k] == p;
    }
  }

  /**
   * In a lookup every container not named `AttributesName` comes before every one so named,
   * and each of the two groups keeps registration order.
   */
  lemma {:induction false} LookupAttributesLast<T, P>(cs: seq<Container<T, P>>, t: T)
    ensures forall i, j ::
              0 <= i < j < |Selected(cs, t)| && Selected(cs, t)[i].name == AttributesName ==>
                Selected(cs, t)[j].name == AttributesName
    ensures Selected(cs, t) == Matching(cs, t, false) + Matching(cs, t, true)
    ensures IsSubsequence(Matching(cs, t, false), cs) && IsSubsequence(Matching(cs, t, true), cs)
  {
    var front: seq<Container<T, P>>, back: seq<Container<T, P>> := Matching(cs, t, false), Matching(cs, t, true);
    MatchingElements(cs, t, false);
    MatchingElements(cs, t, true);
    assert forall k :: 0 <= k < |front| ==> front[k] in front;
    assert forall k :: 0 <= k < |back| ==> back[k] in back;
    MatchingIsSubsequence(cs, t, false);
    MatchingIsSubsequence(cs, t, true);
  }

  /**
   * Registering one container changes a lookup only by its pack: after the other
   * non-attribute packs when it is not named `AttributesName`, at the very end when it is,
   * and not at all when its filter rejects the type.
   */
  lemma {:induction false} LookupAfterRegister<T, P>(cs: seq<Container<T, P>>, c: Container<T, P>, t: T)
    ensures !c.filter(t) ==> EffectivePacks(cs + [c], t) == EffectivePacks(cs, t)
    ensures c.filter(t) && c.name == AttributesName ==>
      EffectivePacks(cs + [c], t) == EffectivePacks(cs, t) + [c.pack]
    ensures c.filter(t) && c.name != AttributesName ==>
      EffectivePacks(cs + [c], t)
      == PacksOf(Matching(cs, t, false)) + [c.pack] + PacksOf(Matching(cs, t, true))
  {
    var ext := cs + [c];
    assert ext[..|ext| - 1] == cs;
    var front, back := Matching(cs, t, false), Matching(cs, t, true);
    if c.filter(t) && c.name == AttributesName {
      PacksOfAppend(front, back + [c]);
      PacksOfAppend(front, back);
      PacksOfAppend(back, [c]);
    } else if c.filter(t) {
      PacksOfAppend(front + [c], back);
      PacksOfAppend(front, [c]);
    }
  }

  /** After removing `name`, no container of that name is left. */
  lemma {:induction false} RemoveLeavesNoneNamed<T, P>(cs: seq<Container<T, P>>, name: string)
    ensures forall i :: 0 <= i < |WithoutName(cs, name)| ==> WithoutName(cs, name)[i].name != name
  {
    forall c | c in WithoutName(cs, name) ensures c.name != name {
      RemoveMultiplicity(cs, name, c);
    }
  }

  /** Removing `name` keeps every container of another name, as often as it was registered. */
  lemma {:induction false} RemoveMultiplicity<T, P>(cs: seq<Container<T, P>>, name: string, c: Container<T, P>)
    ensures multiset(WithoutName(cs, name))[c] == if c.name == name then 0 else multiset(cs)[c]
  {
    if cs != [] {
      var init := cs[..|cs| - 1];
      assert cs == init + [cs[|cs| - 1]];
      RemoveMultiplicity(init, name, c);
    }
  }

  /** The containers of other names keep their relative order. */
  lemma {:induction false} RemoveKeepsOrder<T, P>(cs: seq<Container<T, P>>, name: string)
    ensures IsSubsequence(WithoutName(cs, name), cs)
    decreases |cs|
  {
    if cs != [] {
      var init := cs[..|cs| - 1];
      var last := cs[|cs| - 1];
      assert cs == init + [last];
      RemoveKeepsOrder(init, name);
      var w := WithoutName(cs, name);
      if last.name == name {
        assert w == WithoutName(init, name);
        SubsequenceExtend(WithoutName(init, name), init, last);
      } else {
        assert w == WithoutName(init, name) + [last];
        assert w[..|w| - 1] == WithoutName(init, name) && w[|w| - 1] == last;
      }
    }
  }

  /** Removing a name nobody registered changes nothing. */
  lemma {:induction false} RemoveAbsentIsNoOp<T, P>(cs: seq<Container<T, P>>, name: string)
    requires forall i :: 0 <= i < |cs| ==> cs[i].name != name
    ensures WithoutName(cs, name) == cs
  {
    if cs != [] {
      var init := cs[..|cs| - 1];
      assert cs == init + [cs[|cs| - 1]];
      RemoveAbsentIsNoOp(init, name);
    }
  }

  /** Removing the same name twice is the same as removing it once. */
  lemma RemoveIdempotent<T, P>(cs: seq<Container<T, P>>, name: string)
    ensures WithoutName(WithoutName(cs, name), name) == WithoutName(cs, name)
  {
    RemoveLeavesNoneNamed(cs, name);
    RemoveAbsentIsNoOp(WithoutName(cs, name), name);
  }

  /** Once the attribute containers are removed, a lookup follows registration order alone. */
  lemma {:induction false} LookupWithoutAttributes<T, P>(cs: seq<Container<T, P>>, t: T)
    ensures EffectivePacks(WithoutName(cs, AttributesName), t) == PacksOf(Matching(cs, t, false))
  {
    var w := WithoutName(cs, AttributesName);
    MatchingOfWithout(cs, t);
    RemoveLeavesNoneNamed(cs, AttributesName);
    NoAttributesMatch(w, t);
    assert Selected(w, t) == Matching(w, t, false);
  }

  lemma {:induction false} MatchingOfWithout<T, P>(cs: seq<Container<T, P>>, t: T)
    ensures Matching(WithoutName(cs, AttributesName), t, false) == Matching(cs, t, false)
  {
    if cs != [] {
      var init := cs[..|cs| - 1];
      var last := cs[|cs| - 1];
      MatchingOfWithout(init, t);
      var w := WithoutName(init, AttributesName);
      if last.name != AttributesName {
        assert WithoutName(cs, AttributesName) == w + [last];
        assert (w + [last])[..|w + [last]| - 1] == w;
      } else {
        assert WithoutName(cs, AttributesName) == w;
        assert Matching(cs, t, false) == Matching(init, t, false);
      }
    }
  }

  lemma {:induction false} NoAttributesMatch<T, P>(cs: seq<Container<T, P>>, t: T)
    requires forall i :: 0 <= i < |cs| ==> cs[i].name != AttributesName
    ensures Matching(cs, t, true) == []
  {
    if cs != [] {
      NoAttributesMatch(cs[..|cs| - 1], t);
    }
  }
}
