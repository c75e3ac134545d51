/** The decision of RoleGuard.canActivate (src/common/guards/roles.guard.ts). */
module RolesGuard {
  import opened Common

  /** `needle` occurs in `hay` starting at index i. */
  predicate OccursAt(hay: string, needle: string, i: int) {
    0 <= i && i + |needle| <= |hay| && hay[i..i + |needle|] == needle
  }

  /** `hay.includes(needle)`, as a specification. */
  ghost predicate Includes(hay: string, needle: string)
    ensures Includes(hay, needle) ==> |needle| <= |hay|
    ensures needle == [] ==> Includes(hay, needle)
  {
    assert needle == [] ==> OccursAt(hay, needle, 0);
    exists i :: OccursAt(hay, needle, i)
  }

  /** `hay.includes(needle)`, computed by trying every start position from `from`. */
  function IncludesFrom(hay: string, needle: string, from: nat): (r: bool)
    ensures r <==> exists i :: from <= i && OccursAt(hay, needle, i)
    decreases |hay| - from
  {
    if from + |needle| > |hay| then false
    else if hay[from..from + |needle|] == needle then
      assert OccursAt(hay, needle, from);
      true
    else
      var r := IncludesFrom(hay, needle, from + 1);
      assert forall i :: from <= i && OccursAt(hay, needle, i) ==> i == from || from + 1 <= i;
      r
  }

  /** Some required role occurs inside the user's role string. */
  function SomeRoleIncluded(requiredRoles: seq<string>, userRole: string): (r: bool)
    ensures r <==> exists k :: 0 <= k < |requiredRoles| && Includes(userRole, requiredRoles[k])
  {
    if requiredRoles == [] then false
    else
      var r := IncludesFrom(userRole, requiredRoles[0], 0) || SomeRoleIncluded(requiredRoles[1..], userRole);
      assert forall k :: 1 <= k < |requiredRoles| ==> requiredRoles[k] == requiredRoles[1..][k - 1];
      r
  }

  /** canActivate: no Roles metadata lets everyone through; otherwise some
      required role must occur inside the user's role string (`user.role?.`
      gives `undefined`, which is falsy, for a user without a role). */
  function CanActivate(requiredRoles: Option<seq<string>>, userRole: Option<string>): (allowed: bool)
    ensures requiredRoles.None? ==> allowed
    ensures requiredRoles.Some? ==>
              (allowed <==> userRole.Some? &&
                            exists k :: 0 <= k < |requiredRoles.value| && Includes(userRole.value, requiredRoles.value[k]))
  {
    if requiredRoles.None? then true
    else userRole.Some? && SomeRoleIncluded(requiredRoles.value, userRole.value)
  }

  /** An empty list of required roles denies everyone; a user without a role
      is always denied when roles are required. */
  lemma DenialCases(userRole: Option<string>, required: seq<string>)
    ensures !CanActivate(Some([]), userRole)
    ensures !CanActivate(Some(required), None)
  {
  }

  /** The test is containment, not equality: `ADMIN` lets `SUPERADMIN` in. */
  lemma SubstringMatch()
    ensures CanActivate(Some(["ADMIN"]), Some("SUPERADMIN"))
    ensures !CanActivate(Some(["ADMIN"]), Some("CLIENT"))
  {
    assert OccursAt("SUPERADMIN", "ADMIN", 5);
    assert "CLIENT"[0..5][0] != "ADMIN"[0];
    assert "CLIENT"[1..6][0] != "ADMIN"[0];
    assert !IncludesFrom("CLIENT", "ADMIN", 0);
  }
}
