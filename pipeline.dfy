/** The step registry of `Pipeline`, in both of its variants. The preprocessing and the older
    processing module register, unregister, move and run steps alike; they differ only in
    attribute lookup (`StepAttribute` and `StepByName`). Steps are opaque callables: a step is
    its function on the data, whether it has a `to` method, and its attributes. */
module Pipelines {
  import opened Wrappers

  datatype Step<!D, A> = Step(apply: D -> D, movable: bool, attributes: map<string, A>)

  /** The registered names, in registration order. */
  function Names<D, A>(entries: seq<(string, Step<D, A>)>): (r: seq<string>)
    ensures |r| == |entries|
    ensures forall i :: 0 <= i < |entries| ==> r[i] == entries[i].0
  {
    seq(|entries|, i requires 0 <= i < |entries| => entries[i].0)
  }

  predicate UniqueNames(names: seq<string>) {
    forall i, j :: 0 <= i < j < |names| ==> names[i] != names[j]
  }

  /** `del self.pipeline[name]` on the ordered dictionary. */
  function Without<D, A>(entries: seq<(string, Step<D, A>)>, name: string): (r: seq<(string, Step<D, A>)>)
    ensures name !in Names(r)
    ensures forall n :: n in Names(r) <==> n in Names(entries) && n != name
    decreases |entries|
  {
    if entries == [] then []
    else
      var rest := Without(entries[1..], name);
      assert forall n :: n in Names(entries) <==> n == entries[0].0 || n in Names(entries[1..]) by {
        assert Names(entries) == [entries[0].0] + Names(entries[1..]);
      }
      if entries[0].0 == name then rest
      else
        assert Names([entries[0]] + rest) == [entries[0].0] + Names(rest);
        [entries[0]] + rest
  }

  /** With unique names, deleting a registered name removes exactly its entry and keeps the
      other entries in their order. */
  lemma {:induction false} WithoutAt<D, A>(entries: seq<(string, Step<D, A>)>, k: nat)
    requires UniqueNames(Names(entries)) && k < |entries|
    ensures Without(entries, entries[k].0) == entries[..k] + entries[k + 1..]
    decreases |entries|
  {
    if k == 0 {
      WithoutAbsent(entries[1..], entries[0].0);
    } else {
      UniqueNamesTail(entries);
      assert entries[0].0 != entries[k].0 by {
        assert Names(entries)[0] != Names(entries)[k];
      }
      WithoutAt(entries[1..], k - 1);
      WithoutCons(entries, entries[k].0);
      SpliceTail(entries, k);
    }
  }

  /** Deleting a name other than the first keeps the first entry in front. */
  lemma WithoutCons<D, A>(entries: seq<(string, Step<D, A>)>, name: string)
    requires entries != [] && entries[0].0 != name
    ensures Without(entries, name) == [entries[0]] + Without(entries[1..], name)
  {
  }

  /** Cutting out position `k > 0` is cutting out position `k - 1` of the tail. */
  lemma SpliceTail<T>(s: seq<T>, k: nat)
    requires 0 < k < |s|
    ensures s[1..][k - 1] == s[k]
    ensures s[..k] + s[k + 1..] == [s[0]] + (s[1..][..k - 1] + s[1..][k..])
  {
    assert s[1..][..k - 1] == s[1..k];
    assert s[1..][k..] == s[k + 1..];
    assert s[..k] == [s[0]] + s[1..k];
  }

  /** Dropping the first entry keeps the names unique. */
  lemma UniqueNamesTail<D, A>(entries: seq<(string, Step<D, A>)>)
    requires entries != [] && UniqueNames(Names(entries))
    ensures UniqueNames(Names(entries[1..]))
  {
    forall i, j | 0 <= i < j < |entries| - 1
      ensures Names(entries[1..])[i] != Names(entries[1..])[j]
    {
      assert Names(entries)[i + 1] != Names(entries)[j + 1];
    }
  }

  /** Deleting an absent name changes nothing. */
  lemma {:induction false} WithoutAbsent<D, A>(entries: seq<(string, Step<D, A>)>, name: string)
    requires name !in Names(entries)
    ensures Without(entries, name) == entries
    decreases |entries|
  {
    if entries != [] {
      assert Names(entries) == [entries[0].0] + Names(entries[1..]);
      WithoutAbsent(entries[1..], name);
    }
  }

  /** Unregistering the name just registered gives back the registry as it was. */
  lemma {:induction false} RegisterThenUnregister<D, A>(entries: seq<(string, Step<D, A>)>, name: string, step: Step<D, A>)
    requires name !in Names(entries)
    ensures Without(entries + [(name, step)], name) == entries
    decreases |entries|
  {
    var stored := entries + [(name, step)];
    if entries == [] {
      assert stored[1..] == [];
    } else {
      assert Names(entries) == [entries[0].0] + Names(entries[1..]);
      assert stored[0] == entries[0] && stored[1..] == entries[1..] + [(name, step)];
      RegisterThenUnregister(entries[1..], name, step);
      WithoutCons(stored, name);
    }
  }

  /** Deleting keeps the remaining names unique. */
  lemma {:induction false} WithoutUnique<D, A>(entries: seq<(string, Step<D, A>)>, name: string)
    requires UniqueNames(Names(entries))
    ensures UniqueNames(Names(Without(entries, name)))
    decreases |entries|
  {
    if entries != [] {
      var tail := entries[1..];
      assert UniqueNames(Names(tail)) by {
        forall i, j | 0 <= i < j < |tail|
          ensures Names(tail)[i] != Names(tail)[j]
        {
          assert Names(entries)[i + 1] != Names(entries)[j + 1];
        }
      }
      WithoutUnique(tail, name);
      if entries[0].0 != name {
        var rest := Without(tail, name);
        var r := [entries[0]] + rest;
        assert entries[0].0 !in Names(tail) by {
          forall j | 0 <= j < |tail|
            ensures Names(tail)[j] != entries[0].0
          {
            assert Names(entries)[0] != Names(entries)[j + 1];
          }
        }
        forall i, j | 0 <= i < j < |r|
          ensures Names(r)[i] != Names(r)[j]
        {
          if i == 0 {
            assert Names(r)[j] == Names(rest)[j - 1];
            assert Names(rest)[j - 1] in Names(rest);
          } else {
            assert Names(r)[i] == Names(rest)[i - 1] && Names(r)[j] == Names(rest)[j - 1];
          }
        }
      }
    }
  }

  /** The result of `for name, func in self.pipeline.items(): data = func(data)`. */
  function Fold<D, A>(entries: seq<(string, Step<D, A>)>, data: D): D
    decreases |entries|
  {
    if entries == [] then data else Fold(entries[1..], entries[0].1.apply(data))
  }

  /** Running two pipelines' steps one after the other is running the first, then the second
      on its result. */
  lemma {:induction false} FoldAppend<D, A>(first: seq<(string, Step<D, A>)>, second: seq<(string, Step<D, A>)>, data: D)
    ensures Fold(first + second, data) == Fold(second, Fold(first, data))
    decreases |first|
  {
    if first != [] {
      assert (first + second)[1..] == first[1..] + second;
      FoldAppend(first[1..], second, first[0].1.apply(data));
    } else {
      assert first + second == second;
    }
  }

  /** A newly registered step runs last, on the result of all the earlier ones. */
  lemma RegisteredRunsLast<D, A>(entries: seq<(string, Step<D, A>)>, name: string, step: Step<D, A>, data: D)
    ensures Fold(entries + [(name, step)], data) == step.apply(Fold(entries, data))
  {
    FoldAppend(entries, [(name, step)], data);
  }

  /** The `.to(device)` calls `_func2device` makes over the entries, in order: one per step
      that has a `to` method. */
  function MovesFor<D, A>(entries: seq<(string, Step<D, A>)>, device: string): (r: seq<(string, string)>)
    ensures forall m :: m in r ==> m.1 == device && m.0 in Names(entries)
    ensures forall i :: 0 <= i < |entries| && entries[i].1.movable ==> (entries[i].0, device) in r
    decreases |entries|
  {
    if entries == [] then []
    else
      assert Names(entries) == [entries[0].0] + Names(entries[1..]);
      var rest := MovesFor(entries[1..], device);
      assert forall i :: 1 <= i < |entries| ==> entries[i] == entries[1..][i - 1];
      (if entries[0].1.movable then [(entries[0].0, device)] else []) + rest
  }

  /** Where `__getattr__` of the preprocessing pipeline finds `item`: the position of the
      first step, in order, that has an attribute of that name. */
  function FirstWithAttribute<D, A>(entries: seq<(string, Step<D, A>)>, item: string): (r: Option<nat>)
    ensures r.None? <==> forall i :: 0 <= i < |entries| ==> item !in entries[i].1.attributes
    ensures r.Some? ==> (r.value < |entries| && item in entries[r.value].1.attributes
      && forall j :: 0 <= j < r.value ==> item !in entries[j].1.attributes)
    decreases |entries|
  {
    if entries == [] then None
    else if item in entries[0].1.attributes then Some(0)
    else
      var r := FirstWithAttribute(entries[1..], item);
      assert forall i :: 1 <= i < |entries| ==> entries[i] == entries[1..][i - 1];
      if r.Some? then Some(r.value + 1) else None
  }

  /** The position of the step registered under `name` (`self.pipeline[name]`). */
  function IndexOf<D, A>(entries: seq<(string, Step<D, A>)>, name: string): (r: Option<nat>)
    ensures r.None? <==> name !in Names(entries)
    ensures r.Some? ==> r.value < |entries| && entries[r.value].0 == name
    decreases |entries|
  {
    if entries == [] then None
    else
      assert Names(entries) == [entries[0].0] + Names(entries[1..]);
      if entries[0].0 == name then Some(0)
      else
        var r := IndexOf(entries[1..], name);
        if r.Some? then Some(r.value + 1) else None
  }

  function DuplicateMessage(name: string): string {
    "Pipeline already contains a step with name '" + name + "'"
  }

  function MissingMessage(name: string): string {
    "Pipeline does not contain a step with name '" + name + "'"
  }

  function NoAttributeMessage(item: string): string {
    "'Pipeline' object has no attribute '" + item + "'"
  }

  /** The first name that occurs twice, in registration order, if any. */
  function FirstDuplicate(names: seq<string>): (r: Option<string>)
    ensures r.None? <==> UniqueNames(names)
    decreases |names|
  {
    if names == [] then None
    else
      var r := FirstDuplicate(names[..|names| - 1]);
      assert forall i :: 0 <= i < |names| - 1 ==> names[..|names| - 1][i] == names[i];
      if r.Some? then r
      else if names[|names| - 1] in names[..|names| - 1] then Some(names[|names| - 1])
      else r
  }

  /** A step registry on one device. `device` is the attribute the constructor sets and
      `_func2device` reads; `assignedDevice` is the `_device` attribute `to` writes. `moves`
      records the `.to(...)` calls made on steps: the step's name and the target device. */
  class Pipeline<D, A> {
    var entries: seq<(string, Step<D, A>)>
    const device: string
    var assignedDevice: Option<string>
    var moves: seq<(string, string)>

    ghost predicate Valid()
      reads this
    {
      UniqueNames(Names(entries))
    }

    /** An empty registry. */
    constructor (device: string)
      ensures Valid()
      ensures entries == [] && moves == [] && this.device == device && assignedDevice == None
    {
      entries := [];
      this.device := device;
      assignedDevice := None;
      moves := [];
    }

    /** `register`: a duplicate name raises and changes nothing; otherwise the step goes
        last and, if it has `to`, is moved to the pipeline's device. */
    method Register(name: string, step: Step<D, A>) returns (r: Outcome<string>)
      requires Valid()
      modifies this
      ensures Valid()
      ensures r == (if name in Names(old(entries)) then Fail(DuplicateMessage(name)) else Pass)
      ensures r.Fail? ==> entries == old(entries) && moves == old(moves)
      ensures r.Pass? ==> (entries == old(entries) + [(name, step)]
        && moves == old(moves) + (if step.movable then [(name, device)] else []))
      ensures assignedDevice == old(assignedDevice)
    {
      if name in Names(entries) {
        return Fail(DuplicateMessage(name));
      }
      assert Names(entries + [(name, step)]) == Names(entries) + [name];
      entries := entries + [(name, step)];
      if step.movable {
        moves := moves + [(name, device)];
      }
      r := Pass;
    }

    /** `unregister`: an absent name raises; otherwise exactly that step is removed. */
    method Unregister(name: string) returns (r: Outcome<string>)
      requires Valid()
      modifies this
      ensures Valid()
      ensures r == (if name in Names(old(entries)) then Pass else Fail(MissingMessage(name)))
      ensures entries == Without(old(entries), name)
      ensures moves == old(moves) && assignedDevice == old(assignedDevice)
    {
      if name !in Names(entries) {
        WithoutAbsent(entries, name);
        return Fail(MissingMessage(name));
      }
      WithoutUnique(entries, name);
      entries := Without(entries, name);
      r := Pass;
    }

    /** `to`, as written: records the device in `_device`, but `_func2device` moves every
        step to `self.device`, the device given at construction. */
    method To(device: string) returns (self: Pipeline<D, A>)
      modifies this
      ensures self == this
      ensures assignedDevice == Some(device) && entries == old(entries)
      ensures moves == old(moves) + MovesFor(entries, this.device)
    {
      assignedDevice := Some(device);
      var i := 0;
      while i < |entries|
        invariant i <= |entries| && entries == old(entries) && assignedDevice == Some(device)
        invariant moves == old(moves) + MovesFor(entries[..i], this.device)
      {
        MovesForPrefix(entries, i, this.device);
        if entries[i].1.movable {
          moves := moves + [(entries[i].0, this.device)];
        }
        i := i + 1;
      }
      assert entries[..i] == entries;
      self := this;
    }

    /** `to` as evidently intended: every step that has `to` is moved to the given device. */
    method ToIntended(device: string) returns (self: Pipeline<D, A>)
      modifies this
      ensures self == this
      ensures assignedDevice == Some(device) && entries == old(entries)
      ensures moves == old(moves) + MovesFor(entries, device)
    {
      assignedDevice := Some(device);
      var i := 0;
      while i < |entries|
        invariant i <= |entries| && entries == old(entries) && assignedDevice == Some(device)
        invariant moves == old(moves) + MovesFor(entries[..i], device)
      {
        MovesForPrefix(entries, i, device);
        if entries[i].1.movable {
          moves := moves + [(entries[i].0, device)];
        }
        i := i + 1;
      }
      assert entries[..i] == entries;
      self := this;
    }

    /** `__call__`: the data passes through the steps in registration order. */
    method Call(data: D) returns (r: D)
      ensures r == Fold(entries, data)
    {
      r := data;
      var i := 0;
      while i < |entries|
        invariant i <= |entries|
        invariant Fold(entries[i..], r) == Fold(entries, data)
      {
        assert entries[i..][1..] == entries[i + 1..];
        r := entries[i].1.apply(r);
        i := i + 1;
      }
    }

    /** `__getitem__`: the position of the step registered under `name`; an absent name
        raises `KeyError`. */
    function GetItem(name: string): (r: Option<nat>)
      reads this
      ensures r.None? <==> name !in Names(entries)
      ensures r.Some? ==> r.value < |entries| && entries[r.value].0 == name
    {
      IndexOf(entries, name)
    }

    /** `__len__`. */
    function Length(): (n: nat)
      reads this
      ensures n == |Names(entries)|
    {
      |entries|
    }

    /** `__contains__`. */
    function Contains(name: string): (b: bool)
      reads this
      ensures b <==> exists i :: 0 <= i < |entries| && entries[i].0 == name
    {
      name in Names(entries)
    }

    /** `__getattr__` of the preprocessing pipeline: the attribute of the first step that
        has one of that name, else `AttributeError`. */
    function StepAttribute(item: string): (r: Result<A, string>)
      reads this
      ensures r.Err? <==> forall i :: 0 <= i < |entries| ==> item !in entries[i].1.attributes
      ensures r.Err? ==> r.error == NoAttributeMessage(item)
      ensures r.Ok? ==> exists i :: (
          0 <= i < |entries| && item in entries[i].1.attributes
          && (forall j :: 0 <= j < i ==> item !in entries[j].1.attributes)
          && r == Ok(entries[i].1.attributes[item]))
    {
      match FirstWithAttribute(entries, item)
      case Some(i) => Ok(entries[i].1.attributes[item])
      case None => Err(NoAttributeMessage(item))
    }

    /** `__getattr__` of the processing pipeline: the position of the step registered under
        that name, else `AttributeError`. */
    function StepByName(item: string): (r: Result<nat, string>)
      reads this
      ensures r.Err? <==> item !in Names(entries)
      ensures r.Ok? ==> r.value < |entries| && entries[r.value].0 == item
      ensures r.Err? ==> r.error == NoAttributeMessage(item)
    {
      match IndexOf(entries, item)
      case Some(i) => Ok(i)
      case None => Err(NoAttributeMessage(item))
    }
  }

  lemma MovesForSnoc<D, A>(entries: seq<(string, Step<D, A>)>, e: (string, Step<D, A>), device: string)
    ensures MovesFor(entries + [e], device) == MovesFor(entries, device) + (if e.1.movable then [(e.0, device)] else [])
    decreases |entries|
  {
    if entries == [] {
      assert [] + [e] == [e];
    } else {
      assert (entries + [e])[1..] == entries[1..] + [e];
      MovesForSnoc(entries[1..], e, device);
    }
  }

  /** One more entry of the same sequence adds at most its own move. */
  lemma MovesForPrefix<D, A>(entries: seq<(string, Step<D, A>)>, i: nat, device: string)
    requires i < |entries|
    ensures MovesFor(entries[..i + 1], device)
      == MovesFor(entries[..i], device) + (if entries[i].1.movable then [(entries[i].0, device)] else [])
  {
    assert entries[..i + 1] == entries[..i] + [entries[i]];
    MovesForSnoc(entries[..i], entries[i], device);
  }

  /** As written, `to(d)` moves no step to `d` when the pipeline was built for another device:
      every move it makes targets the construction-time device. */
  lemma ToIgnoresArgument<D, A>(entries: seq<(string, Step<D, A>)>, built: string, requested: string)
    requires built != requested
    ensures forall m :: m in MovesFor(entries, built) ==> m.1 != requested
  {
  }

  /** As intended, `to(d)` moves every step that has `to` to `d`. */
  lemma ToIntendedMovesAll<D, A>(entries: seq<(string, Step<D, A>)>, requested: string, k: nat)
    requires k < |entries| && entries[k].1.movable
    ensures (entries[k].0, requested) in MovesFor(entries, requested)
  {
  }

  /** The constructor: registers `steps` in order, then the keyword steps; the first duplicate
      name raises and no pipeline is returned. The moves the earlier registrations already
      made before the exception are not recorded. */
  method Create<D, A>(steps: seq<(string, Step<D, A>)>, keywordSteps: seq<(string, Step<D, A>)>, device: string)
    returns (r: Result<Pipeline<D, A>, string>)
    ensures r.Err? <==> !UniqueNames(Names(steps + keywordSteps))
    ensures r.Err? ==> r.error == DuplicateMessage(FirstDuplicate(Names(steps + keywordSteps)).value)
    ensures r.Ok? ==> (fresh(r.value) && r.value.Valid() && r.value.entries == steps + keywordSteps
      && r.value.device == device && r.value.moves == MovesFor(steps + keywordSteps, device))
  {
    var all := steps + keywordSteps;
    var p := new Pipeline(device);
    var i := 0;
    while i < |all|
      invariant i <= |all| && p.Valid() && fresh(p)
      invariant p.entries == all[..i] && p.device == device && p.moves == MovesFor(all[..i], device)
      invariant UniqueNames(Names(all[..i])) && FirstDuplicate(Names(all[..i])).None?
    {
      var outcome := p.Register(all[i].0, all[i].1);
      if outcome.Fail? {
        DuplicateExtends(all, i);
        return Err(outcome.error);
      }
      CreateStep(all, i, device);
      i := i + 1;
    }
    assert all[..i] == all;
    r := Ok(p);
  }

  /** Registering a fresh name extends the prefix by one: still unique, and the moves
      gain that step's move. */
  lemma CreateStep<D, A>(all: seq<(string, Step<D, A>)>, i: nat, device: string)
    requires i < |all| && UniqueNames(Names(all[..i])) && all[i].0 !in Names(all[..i])
    ensures all[..i + 1] == all[..i] + [all[i]]
    ensures UniqueNames(Names(all[..i + 1])) && FirstDuplicate(Names(all[..i + 1])).None?
    ensures MovesFor(all[..i + 1], device)
      == MovesFor(all[..i], device) + (if all[i].1.movable then [(all[i].0, device)] else [])
  {
    assert all[..i + 1] == all[..i] + [all[i]];
    assert Names(all[..i + 1]) == Names(all[..i]) + [all[i].0];
    MovesForSnoc(all[..i], all[i], device);
  }

  /** Once a prefix has a duplicate, every longer prefix has the same first duplicate. */
  lemma DuplicateExtends<D, A>(all: seq<(string, Step<D, A>)>, i: nat)
    requires i < |all| && UniqueNames(Names(all[..i])) && all[i].0 in Names(all[..i])
    ensures !UniqueNames(Names(all)) && FirstDuplicate(Names(all)) == Some(all[i].0)
  {
    var names := Names(all);
    assert Names(all[..i + 1]) == Names(all[..i]) + [all[i].0];
    assert Names(all[..i + 1])[..i] == Names(all[..i]);
    assert names[..i + 1] == Names(all[..i + 1]);
    FirstDuplicateStable(names, i + 1);
  }

  /** The first duplicate of a prefix is the first duplicate of the whole sequence. */
  lemma {:induction false} FirstDuplicateStable(names: seq<string>, n: nat)
    requires n <= |names| && FirstDuplicate(names[..n]).Some?
    ensures FirstDuplicate(names) == FirstDuplicate(names[..n])
    decreases |names|
  {
    if n < |names| {
      var init := names[..|names| - 1];
      assert init[..n] == names[..n];
      FirstDuplicateStable(init, n);
    } else {
      assert names[..n] == names;
    }
  }

  /** `get_default_paragraph_processing_pipeline`: one step, `sentence_reg`, the splitter's
      `split` (which has no `to`), on the CPU. */
  method DefaultParagraphPipeline<D, A>(split: D -> D, attributes: map<string, A>) returns (p: Pipeline<D, A>)
    ensures fresh(p) && p.Valid() && p.device == "cpu"
    ensures p.entries == [("sentence_reg", Step(split, false, attributes))] && p.moves == []
  {
    p := new Pipeline("cpu");
    var _ := p.Register("sentence_reg", Step(split, false, attributes));
  }

  /** `get_default_coref_pipeline`: one step, `coref`, a resolver (which has `to`), moved to
      the pipeline's device on registration. */
  method DefaultCorefPipeline<D, A>(resolve: D -> D, attributes: map<string, A>, device: string) returns (p: Pipeline<D, A>)
    ensures fresh(p) && p.Valid() && p.device == device
    ensures p.entries == [("coref", Step(resolve, true, attributes))] && p.moves == [("coref", device)]
  {
    p := new Pipeline(device);
    var _ := p.Register("coref", Step(resolve, true, attributes));
  }
}
