/**
 * `Set`, `Filter` and `DefinedOutside` of internal/method/method.go: the
 * registry of generators keyed by method name, the filter that suppresses
 * a method, and the write loop that runs the surviving generators in
 * ascending order of their names.
 */
module Registry {
  import opened Objects
  import opened Decls
  import opened Generators
  import opened GoStrings

  /** Method names mapped to the generators that write them. */
  type Set = map<string, Generator>

  /** Decides whether the named method must NOT be written for the object. */
  type Filter = (Object, string) -> bool

  /** Some method called `name` in the set is declared outside `filename`. */
  predicate DeclaredOutside(methodSet: seq<MethodEntry>, name: string, filename: string)
  {
    exists i | 0 <= i < |methodSet| :: methodSet[i].name == name && methodSet[i].file != filename
  }

  /**
   * The scan that the filter of `DefinedOutside` runs over the object's
   * method set: a method of another name is passed over, the first one of
   * that name declared in another file ends the scan with true, and one
   * declared in `filename` itself does not stop it.
   */
  method ScanMethodSet(methodSet: seq<MethodEntry>, name: string, filename: string) returns (found: bool)
    ensures found == DeclaredOutside(methodSet, name, filename)
  {
    for i := 0 to |methodSet|
      invariant forall k :: 0 <= k < i ==> methodSet[k].name != name || methodSet[k].file == filename
    {
      var mo := methodSet[i];
      if mo.name != name {
        continue;
      }
      if mo.file != filename {
        return true;
      }
    }
    return false;
  }

  /**
   * The filter that suppresses a method exactly when the object already has
   * a method of that name declared in a file other than `filename`, the file
   * being generated.  Its value is the predicate `DeclaredOutside`; that
   * the loop the Go closure runs computes that value is proved of
   * `ScanMethodSet`.
   */
  function DefinedOutside(filename: string): (mf: Filter)
    ensures forall o: Object, name: string :: mf(o, name) == DeclaredOutside(o.methodSet, name, filename)
  {
    (o: Object, name: string) => DeclaredOutside(o.methodSet, name, filename)
  }

  /** With no method of that name at all, nothing is suppressed. */
  lemma NoMatchIsNotSuppressed(filename: string, o: Object, name: string)
    requires forall i :: 0 <= i < |o.methodSet| ==> o.methodSet[i].name != name
    ensures !DefinedOutside(filename)(o, name)
  {
  }

  /** A method of that name declared only in the file being generated does not suppress. */
  lemma SameFileIsNotSuppressed(filename: string, o: Object, name: string)
    requires forall i :: 0 <= i < |o.methodSet| && o.methodSet[i].name == name ==> o.methodSet[i].file == filename
    ensures !DefinedOutside(filename)(o, name)
  {
  }

  /** One method of that name declared in another file suppresses, wherever it stands. */
  lemma OtherFileIsSuppressed(filename: string, o: Object, name: string, i: nat)
    requires i < |o.methodSet| && o.methodSet[i].name == name && o.methodSet[i].file != filename
    ensures DefinedOutside(filename)(o, name)
  {
  }

  /**
   * What `Write` promises: `invoked` lists, in strictly ascending order, the
   * registry's names that the filter lets through, and `emitted` holds one
   * declaration per invoked name, written by that name's generator.
   */
  ghost predicate WriteSpec(s: Set, o: Object, mf: Filter, invoked: seq<string>, emitted: seq<Decl>)
  {
    && StrictlySorted(invoked)
    && (forall n :: n in invoked <==> n in s && !mf(o, n))
    && |emitted| == |invoked|
    && (forall k :: 0 <= k < |invoked| ==> invoked[k] in s && emitted[k] == Generate(s[invoked[k]], o))
  }

  /**
   * The first half of `Set.Write`: the registry's names, gathered in
   * whatever order the map yields them and then sorted.
   */
  method SortedNames(s: Set) returns (names: seq<string>)
    ensures StrictlySorted(names)
    ensures forall n :: n in names <==> n in s
  {
    names := [];
    var rest := s.Keys;
    while rest != {}
      invariant rest <= s.Keys
      invariant multiset(names) == multiset(s.Keys - rest)
      decreases |rest|
    {
      var name :| name in rest;
      assert s.Keys - (rest - {name}) == (s.Keys - rest) + {name};
      names := names + [name];
      rest := rest - {name};
    }
    names := Sort(names);
    SortedSetIsStrict(names, s.Keys);
  }

  /**
   * `Set.Write`: runs, in ascending order of their names, the generator of
   * every name the filter does not reject, appending its declaration; the
   * generator of a rejected name is never run.  `invoked` is the trace of
   * the calls `s[name](f, o)`: the names whose generators ran, in order.
   */
  method Write(s: Set, o: Object, mf: Filter) returns (emitted: seq<Decl>, invoked: seq<string>)
    ensures WriteSpec(s, o, mf, invoked, emitted)
  {
    var names := SortedNames(s);
    emitted, invoked := [], [];
    for i := 0 to |names|
      invariant forall n :: n in invoked <==> n in names[..i] && !mf(o, n)
      invariant StrictlySorted(invoked)
      invariant |emitted| == |invoked|
      invariant forall k :: 0 <= k < |invoked| ==> invoked[k] in s && emitted[k] == Generate(s[invoked[k]], o)
    {
      var name := names[i];
      if mf(o, name) {
        continue;
      }
      forall k | 0 <= k < |invoked|
        ensures Less(invoked[k], name)
      {
        assert invoked[k] in names[..i];
        var m :| 0 <= m < i && names[m] == invoked[k];
      }
      emitted := emitted + [Generate(s[name], o)];
      invoked := invoked + [name];
    }
    assert names[..|names|] == names;
  }

  /**
   * The output of `Write` is determined by the registry, the object and the
   * filter alone: the order in which the map's names were gathered leaves
   * no trace.
   */
  lemma WriteIsDeterministic(s: Set, o: Object, mf: Filter,
                             invoked1: seq<string>, emitted1: seq<Decl>,
                             invoked2: seq<string>, emitted2: seq<Decl>)
    requires WriteSpec(s, o, mf, invoked1, emitted1)
    requires WriteSpec(s, o, mf, invoked2, emitted2)
    ensures invoked1 == invoked2 && emitted1 == emitted2
  {
    StrictlySortedUnique(invoked1, invoked2);
  }

  /** A registry of AddFoo, GetFoo and SetFoo with nothing filtered runs them in that order. */
  lemma WriteRunsInNameOrder(s: Set, o: Object, mf: Filter, invoked: seq<string>, emitted: seq<Decl>)
    requires s.Keys == {"GetFoo", "SetFoo", "AddFoo"}
    requires forall n :: !mf(o, n)
    requires WriteSpec(s, o, mf, invoked, emitted)
    ensures invoked == ["AddFoo", "GetFoo", "SetFoo"]
  {
    var expected := ["AddFoo", "GetFoo", "SetFoo"];
    assert Less("AddFoo", "GetFoo") && Less("GetFoo", "SetFoo");
    LessTransitive("AddFoo", "GetFoo", "SetFoo");
    assert StrictlySorted(expected);
    StrictlySortedUnique(invoked, expected);
  }

  /**
   * A Validate method hand-written in manual.go keeps `Write`, generating
   * zz_generated.go, from running the Validate generator.
   */
  lemma HandWrittenMethodIsNotGenerated(s: Set, o: Object, invoked: seq<string>, emitted: seq<Decl>)
    requires MethodEntry("Validate", "manual.go") in o.methodSet
    requires WriteSpec(s, o, DefinedOutside("zz_generated.go"), invoked, emitted)
    ensures "Validate" !in invoked
  {
    var i :| 0 <= i < |o.methodSet| && o.methodSet[i] == MethodEntry("Validate", "manual.go");
    OtherFileIsSuppressed("zz_generated.go", o, "Validate", i);
  }
}
