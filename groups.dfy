/**
 * The `create_groups` management command: get-or-create each role group by name and
 * report, per name, whether it was created.
 */
module Groups {

  /** The three roles the application's views and templates check for. */
  const RequiredGroups: seq<string> := ["Analista Tributario", "Corredor de Bolsa", "Auditor Interno"]

  /** The group names after `get_or_create` of every name in `names`. */
  function EnsureAll(existing: set<string>, names: seq<string>): (r: set<string>)
    ensures r == existing + set n | n in names
    decreases |names|
  {
    if names == [] then existing else EnsureAll(existing + {names[0]}, names[1..])
  }

  /** The per-name `created` flags the loop reports, in order. */
  function CreatedFlags(existing: set<string>, names: seq<string>): (r: seq<bool>)
    ensures |r| == |names|
    decreases |names|
  {
    if names == [] then []
    else [names[0] !in existing] + CreatedFlags(existing + {names[0]}, names[1..])
  }

  /** With distinct names, a name is reported as created exactly when it did not exist. */
  lemma {:induction false} CreatedFlagsExact(existing: set<string>, names: seq<string>, i: int)
    requires forall a, b :: 0 <= a < b < |names| ==> names[a] != names[b]
    requires 0 <= i < |names|
    ensures CreatedFlags(existing, names)[i] <==> names[i] !in existing
    decreases |names|
  {
    if i > 0 {
      CreatedFlagsExact(existing + {names[0]}, names[1..], i - 1);
      assert names[1..][i - 1] == names[i];
    }
  }

  /** Running the command again creates nothing and changes nothing. */
  lemma CreateGroupsIdempotent(existing: set<string>)
    ensures EnsureAll(EnsureAll(existing, RequiredGroups), RequiredGroups) == EnsureAll(existing, RequiredGroups)
    ensures forall i :: 0 <= i < |RequiredGroups| ==> !CreatedFlags(EnsureAll(existing, RequiredGroups), RequiredGroups)[i]
  {
    var after := EnsureAll(existing, RequiredGroups);
    forall i | 0 <= i < |RequiredGroups|
      ensures !CreatedFlags(after, RequiredGroups)[i]
    {
      CreatedFlagsExact(after, RequiredGroups, i);
    }
  }

  /** The auth group table, as the set of group names. */
  class GroupTable {
    var names: set<string>

    constructor (names: set<string>)
      ensures this.names == names
    {
      this.names := names;
    }

    /** The loop of `handle`: `get_or_create(name=n)` for each `n` in `required`, in order. */
    method EnsureGroups(required: seq<string>) returns (created: seq<bool>)
      modifies this
      ensures names == EnsureAll(old(names), required)
      ensures created == CreatedFlags(old(names), required)
    {
      created := [];
      var i := 0;
      while i < |required|
        invariant 0 <= i <= |required|
        invariant EnsureAll(names, required[i..]) == EnsureAll(old(names), required)
        invariant created + CreatedFlags(names, required[i..]) == CreatedFlags(old(names), required)
      {
        var name := required[i];
        assert required[i..][1..] == required[i + 1..];
        var isNew := name !in names;
        assert CreatedFlags(names, required[i..]) == [isNew] + CreatedFlags(names + {name}, required[i + 1..]);
        names := names + {name};
        created := created + [isNew];
        i := i + 1;
      }
    }

    /** `handle`: after it, every required group exists and no other name was added. */
    method CreateGroups() returns (created: seq<bool>)
      modifies this
      ensures names == EnsureAll(old(names), RequiredGroups)
      ensures forall i :: 0 <= i < |RequiredGroups| ==> RequiredGroups[i] in names
      ensures forall n :: n in names && n !in RequiredGroups ==> n in old(names)
      ensures |created| == |RequiredGroups|
      ensures forall i :: 0 <= i < |RequiredGroups| ==> (created[i] <==> RequiredGroups[i] !in old(names))
    {
      created := EnsureGroups(RequiredGroups);
      forall i | 0 <= i < |RequiredGroups|
        ensures created[i] <==> RequiredGroups[i] !in old(names)
      {
        CreatedFlagsExact(old(names), RequiredGroups, i);
      }
    }
  }
}
