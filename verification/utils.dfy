/** The attribute parser's two helpers: `set_once`, which records an attribute
    value and rejects a repeated attribute, and the message for a missing one. */
module Utils {
  import opened Wrappers

  const DuplicateAttribute: string := "duplicate attribute"

  /** One `set_once(opt, v)` on a slot holding `slot`: the value it leaves and
      what it returns. `replace` runs first, so the slot holds `v` either way. */
  function SetOnceStep<T>(slot: Option<T>, v: T): (r: (Option<T>, Outcome<string>))
    ensures r.0 == Some(v)
    ensures r.1 == Pass <==> slot.None?
    ensures r.1.Fail? ==> r.1.error == DuplicateAttribute
  {
    (Some(v), if slot.None? then Pass else Fail(DuplicateAttribute))
  }

  /** A slot for one attribute's value, filled by `set_once`. */
  class AttrSlot<T> {
    var value: Option<T>

    constructor ()
      ensures value == None
    {
      value := None;
    }

    /** `set_once(&mut self.value, v)`. */
    method SetOnce(v: T) returns (r: Outcome<string>)
      modifies this
      ensures (value, r) == SetOnceStep(old(value), v)
      ensures value == Some(v)
      ensures r.Pass? <==> old(value).None?
      ensures r.Fail? ==> r.error == DuplicateAttribute
    {
      var previous := value;
      value := Some(v);
      match previous
      case None => r := Pass;
      case Some(_) => r := Fail(DuplicateAttribute);
    }
  }

  /** `set_once` called with each of `vs` in turn on one slot: the final slot and
      the results, in call order. */
  function SetOnceAll<T>(slot: Option<T>, vs: seq<T>): (r: (Option<T>, seq<Outcome<string>>))
    ensures |r.1| == |vs|
    decreases |vs|
  {
    if vs == [] then (slot, [])
    else
      var (next, first) := SetOnceStep(slot, vs[0]);
      var (last, rest) := SetOnceAll(next, vs[1..]);
      (last, [first] + rest)
  }

  /** One step of `SetOnceAll`: the first call's result, then the rest of the
      calls on the slot it leaves. */
  lemma SetOnceAllUnfold<T>(slot: Option<T>, vs: seq<T>)
    requires vs != []
    ensures SetOnceAll(slot, vs).1[0] == SetOnceStep(slot, vs[0]).1
    ensures SetOnceAll(slot, vs).1[1..] == SetOnceAll(Some(vs[0]), vs[1..]).1
    ensures SetOnceAll(slot, vs).0 == SetOnceAll(Some(vs[0]), vs[1..]).0
  {
  }

  /** Every call after the first fails with "duplicate attribute". */
  lemma {:induction false} SetOnceAllLaterFail<T>(slot: Option<T>, vs: seq<T>)
    ensures forall i :: 1 <= i < |vs| ==> SetOnceAll(slot, vs).1[i] == Fail(DuplicateAttribute)
    decreases |vs|
  {
    if |vs| > 1 {
      var next := Some(vs[0]);
      var outs := SetOnceAll(slot, vs).1;
      SetOnceAllUnfold(slot, vs);
      SetOnceAllUnfold(next, vs[1..]);
      SetOnceAllLaterFail(next, vs[1..]);
      forall i | 1 <= i < |vs|
        ensures outs[i] == Fail(DuplicateAttribute)
      {
        assert outs[i] == outs[1..][i - 1];
      }
    }
  }

  /** The slot ends up holding the last value given. */
  lemma {:induction false} SetOnceAllFinal<T>(slot: Option<T>, vs: seq<T>)
    ensures SetOnceAll(slot, vs).0 == if vs == [] then slot else Some(vs[|vs| - 1])
    decreases |vs|
  {
    if vs != [] {
      SetOnceAllUnfold(slot, vs);
      SetOnceAllFinal(Some(vs[0]), vs[1..]);
      if |vs| > 1 {
        assert vs[1..][|vs[1..]| - 1] == vs[|vs| - 1];
      }
    }
  }

  /** Repeated `set_once` calls on one slot all succeed exactly when there is no
      call, or one call on an empty slot; every call after the first fails with
      "duplicate attribute"; the slot ends up holding the last value given. */
  lemma SetOnceAllPassIff<T>(slot: Option<T>, vs: seq<T>)
    ensures (forall i :: 0 <= i < |vs| ==> SetOnceAll(slot, vs).1[i] == Pass) <==>
      (|vs| == 0 || (slot.None? && |vs| == 1))
    ensures forall i :: 1 <= i < |vs| ==> SetOnceAll(slot, vs).1[i] == Fail(DuplicateAttribute)
    ensures SetOnceAll(slot, vs).0 == if vs == [] then slot else Some(vs[|vs| - 1])
  {
    SetOnceAllLaterFail(slot, vs);
    SetOnceAllFinal(slot, vs);
    var outs := SetOnceAll(slot, vs).1;
    if |vs| > 1 {
      assert outs[1] != Pass;
    } else if |vs| == 1 {
      SetOnceAllUnfold(slot, vs);
      assert (forall i :: 0 <= i < |vs| ==> outs[i] == Pass) <==> outs[0] == Pass;
    }
  }

  /** `missing_attr(attr)`'s message. */
  function MissingAttr(attr: string): (r: string)
    ensures |r| == |attr| + 27
    ensures r[..15] == "missing #[ormx(" && r[|r| - 12..] == ")] attribute"
    ensures r[15..|r| - 12] == attr
  {
    "missing #[ormx(" + attr + ")] attribute"
  }

  /** Reads the attribute name back out of a missing-attribute message. */
  function AttrNamedIn(message: string): Option<string>
  {
    var prefix := "missing #[ormx(";
    var suffix := ")] attribute";
    if |message| >= |prefix| + |suffix|
       && message[..|prefix|] == prefix
       && message[|message| - |suffix|..] == suffix
    then Some(message[|prefix|..|message| - |suffix|])
    else None
  }

  /** The message names the missing attribute, which can be read back from it, so
      different attributes give different messages. */
  lemma MissingAttrNames(attr: string)
    ensures AttrNamedIn(MissingAttr(attr)) == Some(attr)
  {
    var m := MissingAttr(attr);
    assert m[..15] == "missing #[ormx(";
    assert m[|m| - 12..] == ")] attribute";
    assert m[15..|m| - 12] == attr;
  }

  lemma MissingAttrInjective(a: string, b: string)
    requires MissingAttr(a) == MissingAttr(b)
    ensures a == b
  {
    MissingAttrNames(a);
    MissingAttrNames(b);
  }
}
