/** The `acceptInvite` callable: a signed-in user redeems a workspace's
    invite code (the workspace's own id) and is added to its members with
    the role the owner chose. The handler is a fixed sequence of checks,
    each of which can reject the call, followed by one write of the
    workspace's `members` and `memberNames` maps. Here the store is a
    snapshot passed in, the write is a returned value, and the server
    clock is a parameter. */
module Invite {
  import opened Wrappers
  import opened Js
  import opened JsStrings

  type Uid = string

  /** The server timestamp written to `updatedAt`; its value is opaque. */
  type Timestamp = int

  const EditorRole: string := "editor"
  const ViewerRole: string := "viewer"

  /** The display name of a member who has neither a name nor a usable email claim. */
  const FallbackName: string := "Member"

  /** The stable error codes a client can branch on. */
  datatype ErrorKind = Unauthenticated | InvalidArgument | NotFound | FailedPrecondition | Internal

  /** The verified caller: subject id and the optional `name` and `email` claims. */
  datatype Caller = Caller(uid: Uid, name: Option<string>, email: Option<string>)

  /** A workspace document. A document without `members` or `memberNames`
      reads as an empty map, as the handler's `|| {}` makes it. */
  datatype Workspace = Workspace(
    ownerId: JsValue,
    members: map<Uid, string>,
    memberNames: map<Uid, string>,
    inviteEnabled: JsValue,
    inviteRole: JsValue,
    updatedAt: Option<Timestamp>)

  /** The `workspaces` collection, keyed by workspace id. */
  type Store = map<string, Workspace>

  /** The three fields the handler writes. */
  datatype Update = Update(members: map<Uid, string>, memberNames: map<Uid, string>, updatedAt: Timestamp)

  datatype Outcome = Joined(update: Update) | Rejected(kind: ErrorKind)

  /** How `members[uid]` is read: through the map's own keys only, or the
      way a JavaScript property read does, which also finds the properties
      every plain object inherits from `Object.prototype`. */
  datatype MemberLookup = OwnKeys | PrototypeChain

  /** The property names every plain object inherits from `Object.prototype`;
      reading any of them yields a function or an object, which is truthy. */
  const ObjectPrototypeKeys: set<string> := {
    "constructor", "hasOwnProperty", "isPrototypeOf", "propertyIsEnumerable",
    "toString", "toLocaleString", "valueOf", "__proto__",
    "__defineGetter__", "__defineSetter__", "__lookupGetter__", "__lookupSetter__"
  }

  predicate IsRole(s: string) {
    s == EditorRole || s == ViewerRole
  }

  predicate RolesValid(members: map<Uid, string>) {
    forall u | u in members :: IsRole(members[u])
  }

  /** `ownerId === uid`: strict equality, so an `ownerId` that is not a string never matches. */
  predicate IsOwner(ws: Workspace, uid: Uid) {
    ws.ownerId == Str(uid)
  }

  /** The workspace invariants: the two maps share their keys, the owner is
      not one of the members, and every role is editor or viewer. */
  predicate Valid(ws: Workspace) {
    && ws.members.Keys == ws.memberNames.Keys
    && (forall u | u in ws.members :: !IsOwner(ws, u))
    && RolesValid(ws.members)
  }

  predicate StoreValid(store: Store) {
    forall code | code in store :: Valid(store[code])
  }

  /** The invite code: the trimmed `workspaceId` when it is a string, and
      nothing when it is not a string or trims to the empty string. */
  function InviteCode(workspaceId: JsValue): (code: Option<string>)
    ensures code.None? <==> !workspaceId.Str? || AllWhitespace(workspaceId.s)
    ensures code.Some? ==> code.value != [] && code.value == Trim(workspaceId.s)
  {
    var trimmed := if workspaceId.Str? then Trim(workspaceId.s) else [];
    if trimmed == [] then None else Some(trimmed)
  }

  /** The truthiness test `members[uid]` as a read of the map's own keys:
      the caller is a member when their entry exists and is not empty. */
  predicate AlreadyMember(members: map<Uid, string>, uid: Uid) {
    uid in members && members[uid] != []
  }

  /** The same test as JavaScript evaluates it: a uid the map does not hold
      still reads as truthy when it names an inherited property. */
  predicate AlreadyMemberAsWritten(members: map<Uid, string>, uid: Uid) {
    if uid in members then members[uid] != [] else uid in ObjectPrototypeKeys
  }

  predicate IsMember(lookup: MemberLookup, members: map<Uid, string>, uid: Uid) {
    match lookup
    case OwnKeys => AlreadyMember(members, uid)
    case PrototypeChain => AlreadyMemberAsWritten(members, uid)
  }

  /** `(inviteRole || "viewer")`, accepted only when it is exactly "editor"
      or "viewer"; None stands for the `internal` error. */
  function ResolveRole(inviteRole: JsValue): (role: Option<string>)
    ensures role.Some? ==> IsRole(role.value)
    ensures !Truthy(inviteRole) ==> role == Some(ViewerRole)
    ensures Truthy(inviteRole) ==> (role.Some? <==> inviteRole.Str? && IsRole(inviteRole.s))
    ensures Truthy(inviteRole) && role.Some? ==> inviteRole == Str(role.value)
  {
    var chosen := Or(inviteRole, Str(ViewerRole));
    if chosen == Str(EditorRole) || chosen == Str(ViewerRole) then Some(chosen.s) else None
  }

  /** A claim that is present and not empty, i.e. truthy. */
  predicate Given(claim: Option<string>) {
    claim.Some? && claim.value != []
  }

  /** `name || (email ? email.split("@")[0] : "") || "Member"`: the name
      claim when given; otherwise the non-empty part of the email claim
      before its first "@"; otherwise "Member". Never empty. */
  function DisplayName(name: Option<string>, email: Option<string>): (r: string)
    ensures r != []
    ensures Given(name) ==> r == name.value
    ensures !Given(name) && Given(email) && email.value[0] != '@' ==>
              && 0 < |r| <= |email.value| && r == email.value[..|r|] && '@' !in r
              && (|r| == |email.value| || email.value[|r|] == '@')
    ensures !Given(name) && (!Given(email) || email.value[0] == '@') ==> r == FallbackName
  {
    if Given(name) then
      name.value
    else
      var local := if Given(email) then BeforeFirst(email.value, '@') else [];
      if local != [] then local else FallbackName
  }

  /** Steps after the workspace is found, in the source's order: the owner
      check, the membership check, the invites-enabled check, role
      resolution, then the new `members` and `memberNames` maps. */
  function Admit(lookup: MemberLookup, c: Caller, ws: Workspace, now: Timestamp): (r: Outcome)
    ensures r == Rejected(InvalidArgument) <==> IsOwner(ws, c.uid)
    ensures r == Rejected(FailedPrecondition) <==>
              !IsOwner(ws, c.uid) && (IsMember(lookup, ws.members, c.uid) || !Truthy(ws.inviteEnabled))
    ensures r == Rejected(Internal) <==>
              && !IsOwner(ws, c.uid) && !IsMember(lookup, ws.members, c.uid) && Truthy(ws.inviteEnabled)
              && ResolveRole(ws.inviteRole).None?
    ensures r.Rejected? ==> r.kind in {InvalidArgument, FailedPrecondition, Internal}
    ensures r.Joined? ==>
              && c.uid in r.update.members && IsRole(r.update.members[c.uid])
              && r.update.members == ws.members[c.uid := r.update.members[c.uid]]
              && ResolveRole(ws.inviteRole).Some?
              && r.update.members[c.uid] == ResolveRole(ws.inviteRole).value
              && r.update.memberNames == ws.memberNames[c.uid := DisplayName(c.name, c.email)]
              && r.update.updatedAt == now
  {
    if IsOwner(ws, c.uid) then
      Rejected(InvalidArgument)
    else if IsMember(lookup, ws.members, c.uid) then
      Rejected(FailedPrecondition)
    else if !Truthy(ws.inviteEnabled) then
      Rejected(FailedPrecondition)
    else
      match ResolveRole(ws.inviteRole)
      case None => Rejected(Internal)
      case Some(role) =>
        Joined(Update(ws.members[c.uid := role], ws.memberNames[c.uid := DisplayName(c.name, c.email)], now))
  }

  /** The whole handler for a given reading of `members[uid]`: the caller
      check first, then the invite code, then the workspace lookup, and only
      then the checks against the workspace found. */
  function Handle(lookup: MemberLookup, auth: Option<Caller>, workspaceId: JsValue, store: Store, now: Timestamp): (r: Outcome)
    ensures auth.None? <==> r == Rejected(Unauthenticated)
    ensures auth.Some? && InviteCode(workspaceId).None? ==> r == Rejected(InvalidArgument)
    ensures auth.Some? && InviteCode(workspaceId).Some? ==>
              var code := InviteCode(workspaceId).value;
              && (code !in store <==> r == Rejected(NotFound))
              && (code in store ==> r == Admit(lookup, auth.value, store[code], now))
  {
    if auth.None? then
      Rejected(Unauthenticated)
    else
      match InviteCode(workspaceId)
      case None => Rejected(InvalidArgument)
      case Some(code) =>
        if code !in store then Rejected(NotFound) else Admit(lookup, auth.value, store[code], now)
  }

  /** `acceptInvite`, with the membership check reading the map's own keys.
      No caller: `unauthenticated`, whatever the input and the store. A
      `workspaceId` that is not a string or is blank: `invalid-argument`.
      No workspace under the trimmed code: `not-found`. Otherwise the
      workspace found under the trimmed code decides. */
  function AcceptInvite(auth: Option<Caller>, workspaceId: JsValue, store: Store, now: Timestamp): (r: Outcome)
    ensures auth.None? <==> r == Rejected(Unauthenticated)
    ensures auth.Some? && InviteCode(workspaceId).None? ==> r == Rejected(InvalidArgument)
    ensures auth.Some? && InviteCode(workspaceId).Some? ==>
              var code := InviteCode(workspaceId).value;
              && (code !in store <==> r == Rejected(NotFound))
              && (code in store ==> r == Admit(OwnKeys, auth.value, store[code], now))
  {
    Handle(OwnKeys, auth, workspaceId, store, now)
  }

  /** `acceptInvite` exactly as written, where `members[uid]` also sees the
      properties inherited from `Object.prototype`. It disagrees with
      AcceptInvite only for a caller whose uid names such a property and
      who is not in the map: that caller is told they are already a member. */
  function AcceptInviteAsWritten(auth: Option<Caller>, workspaceId: JsValue, store: Store, now: Timestamp): (r: Outcome)
    ensures r != AcceptInvite(auth, workspaceId, store, now) ==>
              && auth.Some? && auth.value.uid in ObjectPrototypeKeys
              && InviteCode(workspaceId).Some? && InviteCode(workspaceId).value in store
              && auth.value.uid !in store[InviteCode(workspaceId).value].members
              && r == Rejected(FailedPrecondition)
    ensures && auth.Some? && auth.value.uid in ObjectPrototypeKeys
            && InviteCode(workspaceId).Some? && InviteCode(workspaceId).value in store
            && !IsOwner(store[InviteCode(workspaceId).value], auth.value.uid)
            && auth.value.uid !in store[InviteCode(workspaceId).value].members
            ==> r == Rejected(FailedPrecondition)
  {
    Handle(PrototypeChain, auth, workspaceId, store, now)
  }

  /** The store's field-level merge: the three written fields are replaced
      and every other field of the document is kept. */
  function Apply(ws: Workspace, u: Update): (r: Workspace)
    ensures r.members == u.members && r.memberNames == u.memberNames && r.updatedAt == Some(u.updatedAt)
    ensures r.(members := ws.members, memberNames := ws.memberNames, updatedAt := ws.updatedAt) == ws
  {
    ws.(members := u.members, memberNames := u.memberNames, updatedAt := Some(u.updatedAt))
  }

  /** One call followed by its write, if any. */
  datatype Response = Response(outcome: Outcome, store: Store)

  /** A call of `acceptInvite` with its effect on the store: a rejected call
      writes nothing, and a successful one rewrites only the workspace
      under the trimmed invite code. */
  function Invoke(auth: Option<Caller>, workspaceId: JsValue, store: Store, now: Timestamp): (resp: Response)
    ensures resp.outcome == AcceptInvite(auth, workspaceId, store, now)
    ensures resp.outcome.Rejected? ==> resp.store == store
    ensures resp.outcome.Joined? ==>
              && InviteCode(workspaceId).Some? && InviteCode(workspaceId).value in store
              && resp.store.Keys == store.Keys
              && var code := InviteCode(workspaceId).value;
                 && (forall other | other in store && other != code :: resp.store[other] == store[other])
                 && resp.store[code] == Apply(store[code], resp.outcome.update)
  {
    var r := AcceptInvite(auth, workspaceId, store, now);
    if r.Joined? then
      var code := InviteCode(workspaceId).value;
      Response(r, store[code := Apply(store[code], r.update)])
    else
      Response(r, store)
  }
}
