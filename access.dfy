/**
 * Who may open a view (`group_required`) and the two template filters (`has_group`,
 * `lookup_factor`). A user is taken as its authentication flags and its group names.
 */
module Access {
  import opened Common
  import opened Text
  import RatingViews

  datatype User = User(id: nat, isAuthenticated: bool, isSuperuser: bool, groups: set<string>)

  datatype AccessError = PermissionDenied

  /** The names in the decorator's argument, as a set. */
  function NameSet(names: seq<string>): (r: set<string>)
    ensures forall g :: g in r <==> g in names
  {
    set g | g in names
  }

  /** `group_required(names)` lets `u` through. */
  predicate GroupAllowed(u: User, names: seq<string>) {
    u.isAuthenticated && (u.isSuperuser || u.groups * NameSet(names) != {})
  }

  /** The decorated view: the view's own result when allowed, `PermissionDenied` otherwise. */
  function GroupRequired<A, R>(names: seq<string>, view: A -> R, u: User, request: A): (r: Result<R, AccessError>)
    ensures r.Ok? <==> GroupAllowed(u, names)
    ensures r.Ok? ==> r.value == view(request)
  {
    if GroupAllowed(u, names) then Ok(view(request)) else Err(PermissionDenied)
  }

  /** The cases of the access rule, one by one. */
  lemma GroupAllowedCases(u: User, names: seq<string>)
    ensures !u.isAuthenticated ==> !GroupAllowed(u, names)
    ensures u.isAuthenticated && u.isSuperuser ==> GroupAllowed(u, names)
    ensures u.isAuthenticated && !u.isSuperuser ==>
      (GroupAllowed(u, names) <==> exists g :: g in u.groups && g in names)
    ensures u.isAuthenticated && !u.isSuperuser && names == [] ==> !GroupAllowed(u, names)
  {
    if u.isAuthenticated && !u.isSuperuser {
      if exists g :: g in u.groups && g in names {
        var g :| g in u.groups && g in names;
        assert g in u.groups * NameSet(names);
      }
      if GroupAllowed(u, names) {
        var g := Pick(u.groups * NameSet(names));
      }
    }
  }

  /** More required names never shut anyone out. */
  lemma GroupAllowedMonotone(u: User, names: seq<string>, more: seq<string>)
    requires GroupAllowed(u, names)
    ensures GroupAllowed(u, names + more)
  {
    if !u.isSuperuser {
      GroupAllowedCases(u, names);
      var g :| g in u.groups && g in names;
      assert g in u.groups * NameSet(names + more);
    }
  }

  /** The template filter `has_group`: superusers pass, others need that exact group. */
  predicate HasGroup(u: User, name: string) {
    u.isSuperuser || name in u.groups
  }

  /** For an authenticated user, `has_group` agrees with a one-name `group_required`. */
  lemma HasGroupIsGroupAllowed(u: User, name: string)
    requires u.isAuthenticated
    ensures HasGroup(u, name) <==> GroupAllowed(u, [name])
  {
    GroupAllowedCases(u, [name]);
  }

  /**
   * The template filter `lookup_factor`: the text the form posted for concept `key`,
   * or "" when nothing was posted or that field is absent.
   */
  function LookupFactor(post: Option<map<string, string>>, key: nat): (r: string)
    ensures post.None? || post == Some(map[]) ==> r == ""
    ensures post.Some? && "factor_" + NatToString(key) in post.value ==> r == post.value["factor_" + NatToString(key)]
    ensures post.Some? && "factor_" + NatToString(key) !in post.value ==> r == ""
  {
    if post.None? || post.value == map[] then ""
    else
      var field := "factor_" + NatToString(key);
      if field in post.value then post.value[field] else ""
  }

  /** The edit page shows back exactly the factor text the views read from the same form. */
  lemma LookupFactorShowsSubmitted(data: map<string, string>, pk: nat)
    ensures LookupFactor(Some(data), pk) == RatingViews.FactorField(data, pk).GetOr("")
    ensures LookupFactor(Some(data), pk) != "" <==> RatingViews.Submitted(data, pk)
  {
  }
}
