/** The zone-definition registry of a constraint set (BuildGen/Common/Constraints/ConstraintSet.cs). */
module Constraints {
  import opened Wrappers
  import opened Rooms

  /** The first definition whose id equals `id` (a null id matches a null id, as string equality does). */
  function FindById(defs: seq<ZoneDefinition>, id: Option<string>): (r: Option<ZoneDefinition>)
    ensures r.None? <==> forall i :: 0 <= i < |defs| ==> defs[i].Id != id
    ensures r.Some? ==> r.value in defs && r.value.Id == id
    ensures r.Some? ==> exists i :: 0 <= i < |defs| && defs[i] == r.value &&
                                    forall j :: 0 <= j < i ==> defs[j].Id != id
  {
    if |defs| == 0 then None
    else if defs[0].Id == id then Some(defs[0])
    else
      var r := FindById(defs[1..], id);
      if r.Some? then
        var i :| 0 <= i < |defs[1..]| && defs[1..][i] == r.value && forall j :: 0 <= j < i ==> defs[1..][j].Id != id;
        assert defs[i + 1] == r.value;
        r
      else r
  }

  /** Every stored id is present, non-empty and unique; this is what registration maintains. */
  predicate IdsValid(defs: seq<ZoneDefinition>) {
    (forall i :: 0 <= i < |defs| ==> defs[i].Id.Some? && defs[i].Id.value != "") &&
    (forall i, j :: 0 <= i < j < |defs| ==> defs[i].Id != defs[j].Id)
  }

  /** Why a registration is refused: the id already exists, a minimum exceeds its maximum, or the id is
      null or empty. The amount range is not checked. */
  predicate Refused(defs: seq<ZoneDefinition>, id: Option<string>,
                    minWidth: real, maxWidth: real, minHeight: real, maxHeight: real)
  {
    FindById(defs, id).Some? || minWidth > maxWidth || minHeight > maxHeight || id == None || id == Some("")
  }

  /** The definition a successful registration stores: the given fields over the defaults. */
  function NewDefinition(id: Option<string>, zoneType: ZoneType, splitConstraintSet: Option<string>,
                         minWidth: real, maxWidth: real, minHeight: real, maxHeight: real,
                         minAmount: int, maxAmount: int): (z: ZoneDefinition)
    ensures z.Id == id && z.Type == zoneType && z.SplitConstraintSet == splitConstraintSet
    ensures z.MinWidth == minWidth && z.MaxWidth == maxWidth && z.MinHeight == minHeight && z.MaxHeight == maxHeight
    ensures z.MinAmount == minAmount && z.MaxAmount == maxAmount
    ensures z.ExcludedFloorIndices == DefaultZoneDefinition().ExcludedFloorIndices
  {
    DefaultZoneDefinition().(Id := id, Type := zoneType, SplitConstraintSet := splitConstraintSet,
      MinWidth := minWidth, MaxWidth := maxWidth, MinHeight := minHeight, MaxHeight := maxHeight,
      MinAmount := minAmount, MaxAmount := maxAmount)
  }

  /** Appending a definition whose id is not yet known, present and non-empty keeps the ids valid, and
      the new id then finds the new definition while every other id finds what it found before. */
  lemma {:induction false} RegisterKeepsIdsValid(defs: seq<ZoneDefinition>, z: ZoneDefinition, other: Option<string>)
    requires IdsValid(defs)
    requires FindById(defs, z.Id).None? && z.Id.Some? && z.Id.value != ""
    ensures IdsValid(defs + [z])
    ensures FindById(defs + [z], z.Id) == Some(z)
    ensures other != z.Id ==> FindById(defs + [z], other) == FindById(defs, other)
  {
    FindAppend(defs, z, z.Id);
    FindAppend(defs, z, other);
  }

  lemma {:induction false} FindAppend(defs: seq<ZoneDefinition>, z: ZoneDefinition, id: Option<string>)
    ensures FindById(defs + [z], id) == if FindById(defs, id).Some? then FindById(defs, id)
                                        else if z.Id == id then Some(z) else None
  {
    if |defs| > 0 {
      assert (defs + [z])[1..] == defs[1..] + [z];
      FindAppend(defs[1..], z, id);
    } else {
      assert (defs + [z])[1..] == [];
    }
  }

  /** The registry: an ordered list of zone definitions. */
  class ConstraintSet {
    var zoneDefinitions: seq<ZoneDefinition>

    ghost predicate Valid()
      reads this
    {
      IdsValid(zoneDefinitions)
    }

    constructor()
      ensures Valid() && zoneDefinitions == []
    {
      zoneDefinitions := [];
    }

    /** The first definition with the given id, or None. */
    method GetZoneDefinitionById(id: Option<string>) returns (r: Option<ZoneDefinition>)
      ensures r == FindById(zoneDefinitions, id)
    {
      var i := 0;
      while i < |zoneDefinitions|
        invariant 0 <= i <= |zoneDefinitions|
        invariant forall j :: 0 <= j < i ==> zoneDefinitions[j].Id != id
      {
        if zoneDefinitions[i].Id == id {
          FirstMatch(zoneDefinitions, id, i);
          return Some(zoneDefinitions[i]);
        }
        i := i + 1;
      }
      return None;
    }

    /** The range overload: refused (false, nothing stored) exactly in the `Refused` cases, otherwise one
        definition with the given fields is appended. */
    method RegisterZoneDefinitionRange(id: Option<string>, zoneType: ZoneType, splitConstraintSet: Option<string>,
                                       minWidth: real, maxWidth: real, minHeight: real, maxHeight: real,
                                       minAmount: int, maxAmount: int) returns (ok: bool)
      requires Valid()
      modifies this
      ensures Valid()
      ensures ok <==> !Refused(old(zoneDefinitions), id, minWidth, maxWidth, minHeight, maxHeight)
      ensures !ok ==> zoneDefinitions == old(zoneDefinitions)
      ensures ok ==> (zoneDefinitions == old(zoneDefinitions) +
        [NewDefinition(id, zoneType, splitConstraintSet, minWidth, maxWidth, minHeight, maxHeight, minAmount, maxAmount)])
    {
      var existing := GetZoneDefinitionById(id);
      if existing.Some? || minWidth > maxWidth || minHeight > maxHeight || id == None || id == Some("") {
        return false;
      }
      var def := NewDefinition(id, zoneType, splitConstraintSet, minWidth, maxWidth, minHeight, maxHeight, minAmount, maxAmount);
      RegisterKeepsIdsValid(zoneDefinitions, def, id);
      zoneDefinitions := zoneDefinitions + [def];
      return true;
    }

    /** The fixed-size overload: the range overload with minimum equal to maximum. */
    method RegisterZoneDefinition(id: Option<string>, zoneType: ZoneType, splitConstraintSet: Option<string>,
                                  width: real, height: real, minAmount: int, maxAmount: int) returns (ok: bool)
      requires Valid()
      modifies this
      ensures Valid()
      ensures ok <==> !Refused(old(zoneDefinitions), id, width, width, height, height)
      ensures ok <==> FindById(old(zoneDefinitions), id).None? && id.Some? && id.value != ""
      ensures !ok ==> zoneDefinitions == old(zoneDefinitions)
      ensures ok ==> (zoneDefinitions == old(zoneDefinitions) +
        [NewDefinition(id, zoneType, splitConstraintSet, width, width, height, height, minAmount, maxAmount)])
    {
      ok := RegisterZoneDefinitionRange(id, zoneType, splitConstraintSet, width, width, height, height, minAmount, maxAmount);
    }
  }

  lemma FirstMatch(defs: seq<ZoneDefinition>, id: Option<string>, i: int)
    requires 0 <= i < |defs| && defs[i].Id == id
    requires forall j :: 0 <= j < i ==> defs[j].Id != id
    ensures FindById(defs, id) == Some(defs[i])
  {
    var r := FindById(defs, id);
    var k :| 0 <= k < |defs| && defs[k] == r.value && forall j :: 0 <= j < k ==> defs[j].Id != id;
  }
}
