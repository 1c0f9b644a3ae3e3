/** The capability flags users carry, and the per-role templates that the
    Admin (phase 2) and Attendee (phase 1) constructors install with a fixed
    run of `permissions.put(flag, value)` calls. */
module Permissions {
  import opened Base

  /** The `Perms` keys that appear in the modelled code. */
  datatype Perm =
    | CanBeMessaged
    | CanMessageTalk
    | CanSchedule
    | CanSignUpEvent
    | CanSignUpUser
    | CanSpeakAtTalk
    | CanViewStats
    | CanBanUsers
    | CanSeeAllMessages

  /** A user's `Map<Perms, Boolean>`; a missing key reads as `null`. */
  type PermissionMap = map<Perm, bool>

  /** `getPermissions().get(p)`: the stored flag, or `null` (None) when the
      key was never put. */
  function Lookup(perms: PermissionMap, p: Perm): (r: Option<bool>)
    ensures r.Some? <==> p in perms
  {
    if p in perms then Some(perms[p]) else None
  }

  /** Every flag an Admin's template mentions. */
  const AdminKeys: set<Perm> :=
    {CanBeMessaged, CanMessageTalk, CanSchedule, CanSignUpEvent, CanSignUpUser,
     CanSpeakAtTalk, CanViewStats, CanBanUsers, CanSeeAllMessages}

  /** The flags an Admin's template sets to true. */
  const AdminGrants: set<Perm> :=
    {CanSchedule, CanSignUpUser, CanViewStats, CanBanUsers, CanSeeAllMessages}

  /** Every flag an Attendee's template mentions. */
  const AttendeeKeys: set<Perm> :=
    {CanBeMessaged, CanMessageTalk, CanSchedule, CanSignUpEvent, CanSignUpUser, CanSpeakAtTalk}

  /** The flags an Attendee's template sets to true. */
  const AttendeeGrants: set<Perm> := {CanBeMessaged, CanSignUpEvent}

  /** The permission map a new Admin holds, written as the puts of
      `Admin.setPermissions` in source order: defined on exactly the nine
      flags, true on the five administrative ones and false on the rest. */
  function AdminPermissions(): (r: PermissionMap)
    ensures r.Keys == AdminKeys
    ensures forall p :: p in r ==> (r[p] <==> p in AdminGrants)
  {
    map[CanBeMessaged := false, CanMessageTalk := false, CanSchedule := true,
        CanSignUpEvent := false, CanSignUpUser := true, CanSpeakAtTalk := false,
        CanViewStats := true, CanBanUsers := true, CanSeeAllMessages := true]
  }

  /** The permission map a new Attendee holds, written as the puts of
      `Attendee.setPermissions` in source order: defined on exactly six
      flags, true only on being messaged and signing up for events. */
  function AttendeePermissions(): (r: PermissionMap)
    ensures r.Keys == AttendeeKeys
    ensures forall p :: p in r ==> (r[p] <==> p in AttendeeGrants)
  {
    map[CanBeMessaged := true, CanMessageTalk := false, CanSchedule := false,
        CanSignUpEvent := true, CanSignUpUser := false, CanSpeakAtTalk := false]
  }

  /** The two templates compared flag by flag, over the one `Perm` type
      that stands here for both phases' permission enums. The Admin's
      template sets every flag the Attendee's does, and no flag is granted
      by both. The Attendee's lookup is `null` exactly on the three
      administrative flags; that clause is about the merged type, since
      phase 1's enum, which the Attendee uses, has no such flags to ask
      about. */
  lemma RoleTemplatesCompared(p: Perm)
    ensures Lookup(AttendeePermissions(), p).Some? ==> Lookup(AdminPermissions(), p).Some?
    ensures !(Lookup(AdminPermissions(), p) == Some(true) && Lookup(AttendeePermissions(), p) == Some(true))
    ensures Lookup(AttendeePermissions(), p) == None <==> p in {CanViewStats, CanBanUsers, CanSeeAllMessages}
    ensures Lookup(AdminPermissions(), p) == Some(true) <==> p in AdminGrants
  {
  }
}
