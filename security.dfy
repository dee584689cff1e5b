/**
 * inc/security.php: role checks over the session's `role` entry.
 */
module Security {
  import opened Wrappers
  import opened Php

  /** Where requireRole sends a visitor without the role. */
  const AccessDenied := "/index.php?error=access_denied"

  /** hasRole: isset($_SESSION['role']) && $_SESSION['role'] === $role (strict: a string equal
      to the role, not merely loosely equal). */
  predicate HasRole(vars: map<string, Value>, role: string) {
    IsSet(vars, "role") && vars["role"] == Str(role)
  }

  predicate IsAdmin(vars: map<string, Value>) {
    HasRole(vars, "admin")
  }

  predicate IsOrganizer(vars: map<string, Value>) {
    HasRole(vars, "organizer") || HasRole(vars, "admin")
  }

  /** requireRole: Some(location) when the request is redirected and ends, None when it goes on. */
  function RequireRole(vars: map<string, Value>, role: string): (redirect: Option<string>)
    ensures redirect.Some? <==> !HasRole(vars, role)
    ensures redirect.Some? ==> redirect.value == AccessDenied
  {
    if !HasRole(vars, role) then Some(AccessDenied) else None
  }

  function RequireAdmin(vars: map<string, Value>): (redirect: Option<string>)
    ensures redirect.None? <==> IsAdmin(vars)
  {
    RequireRole(vars, "admin")
  }

  /** A session has at most one role: the role value is one string. */
  lemma OneRole(vars: map<string, Value>, r1: string, r2: string)
    requires HasRole(vars, r1) && HasRole(vars, r2)
    ensures r1 == r2
  {
  }

  /** Organizer pages admit exactly the sessions whose role is the string "organizer" or
      "admin"; every admin is also an organizer. */
  lemma OrganizerRoles(vars: map<string, Value>)
    ensures IsOrganizer(vars) <==> "role" in vars && vars["role"] in {Str("organizer"), Str("admin")}
    ensures IsAdmin(vars) ==> IsOrganizer(vars)
  {
  }

  /** Loose look-alikes of a role do not pass the strict comparison. */
  lemma StrictRole(vars: map<string, Value>)
    requires "role" in vars && vars["role"].Bool?
    ensures !IsAdmin(vars) && !IsOrganizer(vars) && RequireAdmin(vars) == Some(AccessDenied)
  {
  }
}
