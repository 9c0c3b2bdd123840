/** The model registry: the administrator-maintained list of callable models,
    at most one of which is the default. The table is a sequence in row-id order. */
module Registry {
  import opened Wrappers
  import opened Text
  import Table

  datatype ModelEntry = ModelEntry(id: nat, name: string, arn: string, isDefault: bool)

  /** Model ids are the table's primary key. */
  predicate UniqueIds(reg: seq<ModelEntry>) {
    forall i, j :: 0 <= i < j < |reg| ==> reg[i].id != reg[j].id
  }

  predicate AtMostOneDefault(reg: seq<ModelEntry>) {
    forall i, j :: 0 <= i < |reg| && 0 <= j < |reg| && reg[i].isDefault && reg[j].isDefault ==> i == j
  }

  /** The invariant every administrative operation keeps. */
  predicate Valid(reg: seq<ModelEntry>) {
    UniqueIds(reg) && AtMostOneDefault(reg)
  }

  /** Number of entries flagged as default. */
  function CountDefaults(reg: seq<ModelEntry>): nat {
    if |reg| == 0 then 0
    else CountDefaults(reg[..|reg| - 1]) + (if reg[|reg| - 1].isDefault then 1 else 0)
  }

  lemma {:induction false} CountDefaultsConcat(a: seq<ModelEntry>, b: seq<ModelEntry>)
    ensures CountDefaults(a + b) == CountDefaults(a) + CountDefaults(b)
    decreases |b|
  {
    if |b| > 0 {
      assert (a + b)[..|a + b| - 1] == a + b[..|b| - 1];
      CountDefaultsConcat(a, b[..|b| - 1]);
    } else {
      assert a + b == a;
    }
  }

  /** No entry is a default exactly when the count is zero. */
  lemma {:induction false} CountDefaultsZero(reg: seq<ModelEntry>)
    ensures CountDefaults(reg) == 0 <==> forall i :: 0 <= i < |reg| ==> !reg[i].isDefault
  {
    if |reg| > 0 {
      var init := reg[..|reg| - 1];
      CountDefaultsZero(init);
      assert forall i :: 0 <= i < |init| ==> init[i] == reg[i];
    }
  }

  /** A registry whose only default sits at `k` has exactly one default. */
  lemma CountDefaultsSingle(reg: seq<ModelEntry>, k: nat)
    requires k < |reg|
    requires forall i :: 0 <= i < |reg| ==> (reg[i].isDefault <==> i == k)
    ensures CountDefaults(reg) == 1
  {
    var pre, post := reg[..k], reg[k + 1..];
    assert reg == pre + [reg[k]] + post;
    CountDefaultsConcat(pre + [reg[k]], post);
    CountDefaultsConcat(pre, [reg[k]]);
    assert [reg[k]][..0] == [];
    CountDefaultsZero(pre);
    CountDefaultsZero(post);
    assert forall i :: 0 <= i < |post| ==> post[i] == reg[k + 1 + i];
  }

  /** "At most one default" read as a count. */
  lemma {:induction false} AtMostOneDefaultCount(reg: seq<ModelEntry>)
    ensures AtMostOneDefault(reg) <==> CountDefaults(reg) <= 1
  {
    if |reg| > 0 {
      var init := reg[..|reg| - 1];
      var last := |reg| - 1;
      AtMostOneDefaultCount(init);
      CountDefaultsZero(init);
      assert forall i :: 0 <= i < |init| ==> init[i] == reg[i];
      if reg[last].isDefault && CountDefaults(init) >= 1 {
        var j :| 0 <= j < |init| && init[j].isDefault;
        assert reg[j].isDefault && reg[last].isDefault && j != last;
      }
    }
  }

  /** A model entry's primary key. */
  function EntryId(m: ModelEntry): nat {
    m.id
  }

  /** Position of the entry with the given id. */
  function Find(reg: seq<ModelEntry>, id: int): Option<nat> {
    Table.Lookup(reg, EntryId, id)
  }

  /** Position of the first entry flagged as default: the source's
      `filter_by(is_default=True).first()`. */
  function FirstDefault(reg: seq<ModelEntry>): (r: Option<nat>)
    ensures r.Some? ==> r.value < |reg| && reg[r.value].isDefault
                        && forall j :: 0 <= j < r.value ==> !reg[j].isDefault
    ensures r.None? <==> forall i :: 0 <= i < |reg| ==> !reg[i].isDefault
  {
    if |reg| == 0 then None
    else if reg[0].isDefault then Some(0)
    else match FirstDefault(reg[1..])
      case None => None
      case Some(k) => Some(k + 1)
  }

  /** Position of the first entry whose id differs from `id`: the source's
      `filter(Model.id != model_id).first()`. */
  function FirstOther(reg: seq<ModelEntry>, id: int): (r: Option<nat>)
    ensures r.Some? ==> r.value < |reg| && reg[r.value].id != id
                        && forall j :: 0 <= j < r.value ==> reg[j].id == id
    ensures r.None? <==> forall i :: 0 <= i < |reg| ==> reg[i].id == id
  {
    if |reg| == 0 then None
    else if reg[0].id != id then Some(0)
    else match FirstOther(reg[1..], id)
      case None => None
      case Some(k) => Some(k + 1)
  }

  /** Every entry with its default flag cleared. */
  function ClearDefaults(reg: seq<ModelEntry>): (r: seq<ModelEntry>)
    ensures |r| == |reg|
    ensures forall i :: 0 <= i < |reg| ==> r[i] == reg[i].(isDefault := false)
  {
    seq(|reg|, i requires 0 <= i < |reg| => reg[i].(isDefault := false))
  }

  /** The marker text whose presence without an inference-profile ARN draws a warning. */
  const OpusFamily := "claude-opus-4"
  const ProfileArnMarker := "inference-profile"

  datatype AddOutcome = MissingFields | Added(id: nat, warned: bool)

  datatype AddResult = AddResult(models: seq<ModelEntry>, outcome: AddOutcome)

  /** Adds a model from the admin form. Name and ARN are required; a checked
      default box (`"on"`) first clears every other default. A Claude Opus 4 ARN
      that is not an inference-profile ARN is accepted with a warning. */
  function AddModel(reg: seq<ModelEntry>, name: Option<string>, arn: Option<string>, defaultBox: Option<string>): (r: AddResult)
    ensures r.outcome == MissingFields <==> !Truthy(name) || !Truthy(arn)
    ensures r.outcome == MissingFields ==> r.models == reg
    ensures r.outcome.Added? ==>
      && |r.models| == |reg| + 1
      && (forall i :: 0 <= i < |reg| ==> reg[i].id != r.outcome.id)
      && r.models[|reg|] == ModelEntry(r.outcome.id, name.value, arn.value, defaultBox == Some("on"))
      && (r.outcome.warned <==> Contains(Lower(arn.value), OpusFamily) && !Contains(Lower(arn.value), ProfileArnMarker))
    ensures r.outcome.Added? && defaultBox == Some("on") ==>
      forall i :: 0 <= i < |r.models| ==> (r.models[i].isDefault <==> i == |reg|)
    ensures r.outcome.Added? ==>
      forall i :: 0 <= i < |reg| ==> r.models[i] == reg[i].(isDefault := reg[i].isDefault && defaultBox != Some("on"))
  {
    if !Truthy(name) || !Truthy(arn) then AddResult(reg, MissingFields)
    else
      var makeDefault := defaultBox == Some("on");
      var warned := Contains(Lower(arn.value), OpusFamily) && !Contains(Lower(arn.value), ProfileArnMarker);
      var kept := if makeDefault then ClearDefaults(reg) else reg;
      var id := Table.FreshId(reg, EntryId);
      AddResult(kept + [ModelEntry(id, name.value, arn.value, makeDefault)], Added(id, warned))
  }

  /** Adding a model keeps the registry valid; a new default is the only default,
      and a new non-default leaves the number of defaults as it was. */
  lemma AddModelPreservesValid(reg: seq<ModelEntry>, name: Option<string>, arn: Option<string>, defaultBox: Option<string>)
    requires Valid(reg)
    ensures var r := AddModel(reg, name, arn, defaultBox);
            && Valid(r.models)
            && (r.outcome.Added? && defaultBox == Some("on") ==> CountDefaults(r.models) == 1)
            && (defaultBox != Some("on") ==> CountDefaults(r.models) == CountDefaults(reg))
  {
    var r := AddModel(reg, name, arn, defaultBox);
    if r.outcome.Added? {
      var m := r.models;
      assert m == m[..|reg|] + [m[|reg|]];
      if defaultBox == Some("on") {
        CountDefaultsSingle(m, |reg|);
      } else {
        assert m[..|reg|] == reg;
        CountDefaultsConcat(reg, [m[|reg|]]);
        assert [m[|reg|]][..0] == [];
        AtMostOneDefaultCount(reg);
        AtMostOneDefaultCount(m);
      }
    }
  }

  datatype SetDefaultOutcome = DefaultSet | DefaultNotFound

  datatype SetDefaultResult = SetDefaultResult(models: seq<ModelEntry>, outcome: SetDefaultOutcome)

  /** Makes the entry with `id` the default after clearing every default. An
      unknown id changes nothing (the cleared flags are never committed). */
  function SetDefault(reg: seq<ModelEntry>, id: nat): (r: SetDefaultResult)
    requires UniqueIds(reg)
    ensures r.outcome == DefaultNotFound <==> forall i :: 0 <= i < |reg| ==> reg[i].id != id
    ensures r.outcome == DefaultNotFound ==> r.models == reg
    ensures r.outcome == DefaultSet ==> |r.models| == |reg|
    ensures r.outcome == DefaultSet ==> forall i :: 0 <= i < |reg| ==> r.models[i] == reg[i].(isDefault := reg[i].id == id)
  {
    match Find(reg, id)
    case None => SetDefaultResult(reg, DefaultNotFound)
    case Some(k) =>
      var cleared := ClearDefaults(reg);
      SetDefaultResult(cleared[k := cleared[k].(isDefault := true)], DefaultSet)
  }

  /** After setting a default, the target is the one and only default. */
  lemma SetDefaultExactlyOne(reg: seq<ModelEntry>, id: nat)
    requires Valid(reg)
    ensures var r := SetDefault(reg, id);
            && Valid(r.models)
            && (r.outcome == DefaultSet ==> CountDefaults(r.models) == 1)
            && (r.outcome == DefaultSet ==> forall i :: 0 <= i < |r.models| ==> (r.models[i].isDefault <==> r.models[i].id == id))
  {
    var r := SetDefault(reg, id);
    if r.outcome == DefaultSet {
      var k := Find(reg, id).value;
      assert forall i :: 0 <= i < |r.models| ==> (r.models[i].isDefault <==> i == k);
      CountDefaultsSingle(r.models, k);
    }
  }

  datatype DeleteOutcome = Deleted | ModelNotFound | LastModel

  datatype DeleteResult = DeleteResult(models: seq<ModelEntry>, outcome: DeleteOutcome)

  /** With unique ids, the first entry other than the one at `k` is the first
      entry left once `k` is removed. */
  lemma FirstOtherIsFirstRemaining(reg: seq<ModelEntry>, k: nat)
    requires UniqueIds(reg) && 1 < |reg| && k < |reg|
    ensures FirstOther(reg, reg[k].id) == Some(if k == 0 then 1 else 0)
  {
    assert reg[if k == 0 then 1 else 0].id != reg[k].id;
  }

  /** The entries left after removing `k` from `reg`, in order, with the first of
      them flagged as default when the removed entry was the default. */
  function Survivors(reg: seq<ModelEntry>, k: nat): seq<ModelEntry>
    requires k < |reg|
  {
    seq(|reg| - 1, i requires 0 <= i < |reg| - 1 =>
      var kept := if i < k then reg[i] else reg[i + 1];
      kept.(isDefault := kept.isDefault || (reg[k].isDefault && i == 0)))
  }

  /** Flagging the first survivor of `k` and then cutting `k` out yields `Survivors`. */
  lemma RemovePromoted(reg: seq<ModelEntry>, k: nat)
    requires 1 < |reg| && k < |reg|
    ensures var q := if k == 0 then 1 else 0;
            var promoted := if reg[k].isDefault then reg[q := reg[q].(isDefault := true)] else reg;
            promoted[..k] + promoted[k + 1..] == Survivors(reg, k)
  {
    var q := if k == 0 then 1 else 0;
    var promoted := if reg[k].isDefault then reg[q := reg[q].(isDefault := true)] else reg;
    var rest := promoted[..k] + promoted[k + 1..];
    var m := Survivors(reg, k);
    assert |rest| == |m|;
    forall i | 0 <= i < |rest|
      ensures rest[i] == m[i]
    {
      assert rest[i] == if i < k then promoted[i] else promoted[i + 1];
    }
  }

  /** Deletes the entry with `id`. An unknown id, or a registry of at most one
      entry, changes nothing. Deleting the default first flags the first other
      entry as default, which is the first entry left. */
  function DeleteModel(reg: seq<ModelEntry>, id: nat): (r: DeleteResult)
    requires UniqueIds(reg)
    ensures r.outcome == ModelNotFound <==> forall i :: 0 <= i < |reg| ==> reg[i].id != id
    ensures r.outcome == LastModel <==> |reg| <= 1 && exists i :: 0 <= i < |reg| && reg[i].id == id
    ensures r.outcome != Deleted ==> r.models == reg
    ensures r.outcome == Deleted ==> exists k :: 0 <= k < |reg| && reg[k].id == id && r.models == Survivors(reg, k)
  {
    match Find(reg, id)
    case None => DeleteResult(reg, ModelNotFound)
    case Some(k) =>
      if |reg| <= 1 then DeleteResult(reg, LastModel)
      else
        FirstOtherIsFirstRemaining(reg, k);
        RemovePromoted(reg, k);
        var promoted := if !reg[k].isDefault then reg else
          match FirstOther(reg, id)
          case None => reg
          case Some(p) => reg[p := reg[p].(isDefault := true)];
        DeleteResult(promoted[..k] + promoted[k + 1..], Deleted)
  }

  /** The survivor at `i` is the entry at `i` or `i + 1`, depending on which side of `k` it lies. */
  lemma SurvivorAt(reg: seq<ModelEntry>, k: nat, i: nat)
    requires k < |reg| && i < |reg| - 1
    ensures var src := if i < k then i else i + 1;
            && src != k
            && Survivors(reg, k)[i] == reg[src].(isDefault := reg[src].isDefault || (reg[k].isDefault && i == 0))
  {
  }

  lemma SurvivorsKeepUniqueIds(reg: seq<ModelEntry>, k: nat)
    requires UniqueIds(reg) && k < |reg|
    ensures UniqueIds(Survivors(reg, k))
  {
    var m := Survivors(reg, k);
    forall i, j | 0 <= i < j < |m|
      ensures m[i].id != m[j].id
    {
      SurvivorAt(reg, k, i);
      SurvivorAt(reg, k, j);
    }
  }

  lemma CountDefaultsOne(e: ModelEntry)
    ensures CountDefaults([e]) == if e.isDefault then 1 else 0
  {
    assert [e][..0] == [];
  }

  /** The count over `a`, one entry `x`, then `b` adds up piece by piece. */
  lemma CountDefaultsAround(a: seq<ModelEntry>, x: ModelEntry, b: seq<ModelEntry>)
    ensures CountDefaults(a + [x] + b) == CountDefaults(a) + CountDefaults(b) + (if x.isDefault then 1 else 0)
  {
    CountDefaultsConcat(a + [x], b);
    CountDefaultsConcat(a, [x]);
    CountDefaultsOne(x);
  }

  /** Cutting entry `k` out removes its flag from the count and nothing else. */
  lemma CountDefaultsRemoveAt(reg: seq<ModelEntry>, k: nat)
    requires k < |reg|
    ensures CountDefaults(reg[..k] + reg[k + 1..]) + (if reg[k].isDefault then 1 else 0) == CountDefaults(reg)
  {
    SplitAt(reg, k);
    CountDefaultsAround(reg[..k], reg[k], reg[k + 1..]);
    CountDefaultsConcat(reg[..k], reg[k + 1..]);
  }

  /** A sequence is its prefix, the element at `k`, and its suffix. */
  lemma SplitAt(reg: seq<ModelEntry>, k: nat)
    requires k < |reg|
    ensures reg == reg[..k] + [reg[k]] + reg[k + 1..]
  {
  }

  /** Without a deleted default the survivors are exactly the other entries. */
  lemma SurvivorsOfNonDefault(reg: seq<ModelEntry>, k: nat)
    requires k < |reg| && !reg[k].isDefault
    ensures Survivors(reg, k) == reg[..k] + reg[k + 1..]
  {
    var m := Survivors(reg, k);
    var rest := reg[..k] + reg[k + 1..];
    forall i | 0 <= i < |m|
      ensures m[i] == rest[i]
    {
      SurvivorAt(reg, k, i);
    }
  }

  /** When the default is deleted, the first survivor is the only default left. */
  lemma SurvivorsOfDefault(reg: seq<ModelEntry>, k: nat)
    requires AtMostOneDefault(reg) && 1 < |reg| && k < |reg| && reg[k].isDefault
    ensures CountDefaults(Survivors(reg, k)) == 1
  {
    var m := Survivors(reg, k);
    forall i | 0 <= i < |m|
      ensures m[i].isDefault <==> i == 0
    {
      SurvivorAt(reg, k, i);
    }
    CountDefaultsSingle(m, 0);
  }

  lemma SurvivorsKeepCount(reg: seq<ModelEntry>, k: nat)
    requires AtMostOneDefault(reg) && 1 < |reg| && k < |reg|
    ensures CountDefaults(Survivors(reg, k)) == CountDefaults(reg)
  {
    if reg[k].isDefault {
      CountDefaultsSingle(reg, k);
      SurvivorsOfDefault(reg, k);
    } else {
      SurvivorsOfNonDefault(reg, k);
      CountDefaultsRemoveAt(reg, k);
    }
  }

  /** Deleting keeps the registry valid and never changes the number of
      defaults: a deleted default is replaced by exactly one promoted entry. */
  lemma DeleteModelPreservesDefaults(reg: seq<ModelEntry>, id: nat)
    requires Valid(reg)
    ensures var r := DeleteModel(reg, id);
            && Valid(r.models)
            && CountDefaults(r.models) == CountDefaults(reg)
  {
    var r := DeleteModel(reg, id);
    if r.outcome == Deleted {
      var k :| 0 <= k < |reg| && reg[k].id == id && r.models == Survivors(reg, k);
      SurvivorsKeepUniqueIds(reg, k);
      SurvivorsKeepCount(reg, k);
      AtMostOneDefaultCount(reg);
      AtMostOneDefaultCount(r.models);
    }
  }
}
