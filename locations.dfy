/** The locations page (app/dashboard/locations/page.tsx): adding shops under fresh ids, editing
    a row in place, and switching a shop between active and inactive. */
module Locations {
  import opened Tables

  /** A shop; `users` counts the staff assigned to it. */
  datatype Location = Location(id: int, name: string, address: string, users: int, isActive: bool)

  /** The add-location form. */
  datatype LocationDraft = LocationDraft(name: string, address: string)

  function LocationId(l: Location): int { l.id }

  function Flip(): Location -> Location
  {
    (l: Location) => l.(isActive := !l.isActive)
  }

  /** `handleToggleLocationStatus`'s new table: the shop with the id switches status. */
  function ToggleIn(rows: seq<Location>, id: int): (r: seq<Location>)
    ensures |r| == |rows|
    ensures forall i :: 0 <= i < |rows| ==>
      r[i] == if rows[i].id == id then rows[i].(isActive := !rows[i].isActive) else rows[i]
  {
    UpdateWhere(rows, LocationId, id, Flip())
  }

  /** Toggling a shop twice gives back the very same table. */
  lemma ToggleTwice(rows: seq<Location>, id: int)
    ensures ToggleIn(ToggleIn(rows, id), id) == rows
  {
    forall i | 0 <= i < |rows| && rows[i].id == id
      ensures Flip()(Flip()(rows[i])) == rows[i]
    {
    }
    UpdateWhereUndo(rows, LocationId, id, Flip(), Flip());
  }

  class LocationsPage {
    var locations: seq<Location>
    /** The row being edited in place. */
    var editingLocation: Option<Location>

    ghost predicate Valid()
      reads this
    {
      UniqueKeys(locations, LocationId)
    }

    constructor (initialLocations: seq<Location>)
      requires UniqueKeys(initialLocations, LocationId)
      ensures Valid() && locations == initialLocations && editingLocation.None?
    {
      locations := initialLocations;
      editingLocation := None;
    }

    /** `handleAddLocation`: a shop needs a name and an address; it is appended under a fresh id,
        with no staff and active. */
    method AddLocation(draft: LocationDraft) returns (added: Option<Location>)
      requires Valid()
      modifies this`locations
      ensures Valid()
      ensures draft.name == "" || draft.address == "" ==> added.None? && locations == old(locations)
      ensures draft.name != "" && draft.address != "" ==>
        && added == Some(Location(NextId(Keys(old(locations), LocationId)), draft.name, draft.address, 0, true))
        && locations == old(locations) + [added.value]
      ensures added.Some? ==> forall l :: l in old(locations) ==> l.id < added.value.id
    {
      if draft.name == "" || draft.address == "" {
        return None;
      }
      var location := Location(NextId(Keys(locations, LocationId)), draft.name, draft.address, 0, true);
      NextIdIsFresh(locations, LocationId);
      UniqueAfterAppend(locations, location, LocationId);
      locations := locations + [location];
      added := Some(location);
    }

    /** The edit button: start editing a row of the table. */
    method StartEdit(l: Location)
      requires Valid() && l in locations
      modifies this`editingLocation
      ensures Valid() && editingLocation == Some(l)
    {
      editingLocation := Some(l);
    }

    /** The name and address inputs of the row being edited. */
    method EditFields(name: string, address: string)
      requires Valid() && editingLocation.Some?
      modifies this`editingLocation
      ensures Valid()
      ensures editingLocation == Some(old(editingLocation).value.(name := name, address := address))
    {
      editingLocation := Some(editingLocation.value.(name := name, address := address));
    }

    /** `handleUpdateLocation`: with a shop being edited whose name and address are filled in,
        replace the row with its id and stop editing; otherwise nothing changes. */
    method UpdateLocation()
      requires Valid()
      modifies this
      ensures Valid()
      ensures old(editingLocation).None? || old(editingLocation).value.name == "" || old(editingLocation).value.address == "" ==>
        locations == old(locations) && editingLocation == old(editingLocation)
      ensures old(editingLocation).Some? && old(editingLocation).value.name != "" && old(editingLocation).value.address != "" ==>
        var e := old(editingLocation).value;
        && editingLocation.None?
        && |locations| == |old(locations)|
        && (forall i :: 0 <= i < |locations| ==>
              locations[i] == if old(locations)[i].id == e.id then e else old(locations)[i])
    {
      if editingLocation.None? || editingLocation.value.name == "" || editingLocation.value.address == "" {
        return;
      }
      var e := editingLocation.value;
      var replace := (l: Location) => e;
      UniqueAfterUpdate(locations, LocationId, e.id, replace);
      locations := UpdateWhere(locations, LocationId, e.id, replace);
      editingLocation := None;
    }

    /** `handleToggleLocationStatus`: switch the status of the shop with the id; nothing else
        changes. `activated` is what the notification announces: the shop is now active, or no
        shop has the id. */
    method ToggleLocationStatus(id: int) returns (activated: bool)
      requires Valid()
      modifies this`locations
      ensures Valid()
      ensures locations == ToggleIn(old(locations), id)
      ensures forall k :: 0 <= k < |old(locations)| && old(locations)[k].id == id ==>
        && locations == old(locations)[k := old(locations)[k].(isActive := !old(locations)[k].isActive)]
        && activated == locations[k].isActive
      ensures (forall l :: l in old(locations) ==> l.id != id) ==> activated && locations == old(locations)
    {
      var location := Find(locations, (l: Location) => l.id == id);
      activated := !(location.Some? && location.value.isActive);
      UniqueAfterUpdate(locations, LocationId, id, Flip());
      forall k | 0 <= k < |locations| && locations[k].id == id
        ensures ToggleIn(locations, id) == locations[k := locations[k].(isActive := !locations[k].isActive)]
        ensures location == Some(locations[k])
      {
        UpdateWhereAt(locations, LocationId, id, Flip(), k);
        assert locations[k] in locations;
        UniqueKeysSame(locations, LocationId, location.value, locations[k]);
      }
      if location.None? {
        assert forall i :: 0 <= i < |locations| ==> Keys(locations, LocationId)[i] == locations[i].id;
        UpdateWhereAbsent(locations, LocationId, id, Flip());
      }
      locations := ToggleIn(locations, id);
    }
  }
}
