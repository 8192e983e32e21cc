/** Properties of `acceptInvite` that relate several values or several
    calls: what a successful join writes and keeps, the workspace
    invariants it preserves, what a repeated call does, how padding around
    the invite code is ignored, and the worked examples of the handler's
    behaviour. */
module InviteProperties {
  import opened Wrappers
  import opened Js
  import opened JsStrings
  import opened Invite

  /** Under the role invariant every entry is non-empty, so the truthiness
      test on `members[uid]` is exactly key presence. */
  lemma MemberTestIsKeyPresence(members: map<Uid, string>, uid: Uid)
    requires RolesValid(members)
    ensures AlreadyMember(members, uid) <==> uid in members
  {
  }

  /** A successful join adds exactly one entry to each map, under the
      caller's uid, and keeps every other entry and every field it does not
      write. */
  lemma JoinAddsOnlyCaller(c: Caller, ws: Workspace, now: Timestamp)
    requires Valid(ws)
    requires Admit(OwnKeys, c, ws, now).Joined?
    ensures var u := Admit(OwnKeys, c, ws, now).update;
            && c.uid !in ws.members && c.uid !in ws.memberNames
            && u.members.Keys == ws.members.Keys + {c.uid}
            && u.memberNames.Keys == ws.memberNames.Keys + {c.uid}
            && |u.members| == |ws.members| + 1
            && (forall k | k in ws.members :: u.members[k] == ws.members[k])
            && (forall k | k in ws.memberNames :: u.memberNames[k] == ws.memberNames[k])
            && u.memberNames[c.uid] != []
    ensures var after := Apply(ws, Admit(OwnKeys, c, ws, now).update);
            && after.ownerId == ws.ownerId
            && after.inviteEnabled == ws.inviteEnabled
            && after.inviteRole == ws.inviteRole
  {
  }

  /** A successful join keeps the workspace invariants. */
  lemma JoinPreservesValid(c: Caller, ws: Workspace, now: Timestamp)
    requires Valid(ws)
    requires Admit(OwnKeys, c, ws, now).Joined?
    ensures Valid(Apply(ws, Admit(OwnKeys, c, ws, now).update))
  {
  }

  /** No call, successful or not, breaks the invariants of any workspace. */
  lemma InvokePreservesStoreValid(auth: Option<Caller>, workspaceId: JsValue, store: Store, now: Timestamp)
    requires StoreValid(store)
    ensures StoreValid(Invoke(auth, workspaceId, store, now).store)
  {
  }

  /** Calling again after a successful join is rejected with
      `failed-precondition` and writes nothing, so both maps stay as the
      first call left them. */
  lemma SecondCallRejected(c: Caller, workspaceId: JsValue, store: Store, now: Timestamp, later: Timestamp)
    requires Invoke(Some(c), workspaceId, store, now).outcome.Joined?
    ensures var first := Invoke(Some(c), workspaceId, store, now).store;
            Invoke(Some(c), workspaceId, first, later) == Response(Rejected(FailedPrecondition), first)
  {
  }

  /** Whitespace around an invite code is ignored: the padded code reaches
      the same workspace with the same result. */
  lemma PaddedCodeSameOutcome(auth: Option<Caller>, code: string, a: string, b: string, store: Store, now: Timestamp)
    requires AllWhitespace(a) && AllWhitespace(b) && Trimmed(code)
    ensures AcceptInvite(auth, Str(a + code + b), store, now) == AcceptInvite(auth, Str(code), store, now)
  {
    PaddedInviteCode(code, a, b);
    SameCodeSameOutcome(auth, Str(a + code + b), Str(code), store, now);
  }

  /** The handler sees `workspaceId` only through the invite code it yields. */
  lemma SameCodeSameOutcome(auth: Option<Caller>, x: JsValue, y: JsValue, store: Store, now: Timestamp)
    requires InviteCode(x) == InviteCode(y)
    ensures AcceptInvite(auth, x, store, now) == AcceptInvite(auth, y, store, now)
  {
  }

  lemma PaddedInviteCode(code: string, a: string, b: string)
    requires AllWhitespace(a) && AllWhitespace(b) && Trimmed(code)
    ensures InviteCode(Str(a + code + b)) == InviteCode(Str(code))
  {
    assert Trim(a + code + b) == code by { TrimPadded(a, code, b); }
    assert Trim(code) == code by { TrimIsIdentityOnTrimmed(code); }
  }

  /** A workspace whose owner is "u1", with no members, invites open and
      new members joining as editors. */
  function SampleWorkspace(): Workspace {
    Workspace(Str("u1"), map[], map[], Bool(true), Str("editor"), None)
  }

  /** The sample workspace stored under `code`. */
  function SampleStore(code: string): Store {
    map[code := SampleWorkspace()]
  }

  /** A non-blank code with nothing to trim finds the sample workspace,
      which then decides. */
  lemma SampleLookup(auth: Option<Caller>, code: string, now: Timestamp)
    requires auth.Some? && code != [] && Trimmed(code)
    ensures AcceptInvite(auth, Str(code), SampleStore(code), now) == Admit(OwnKeys, auth.value, SampleWorkspace(), now)
  {
    assert InviteCode(Str(code)) == Some(code) by {
      TrimIsIdentityOnTrimmed(code);
    }
  }

  /** A caller with a name claim joins as editor under that name. */
  lemma JoinWithName(code: string, now: Timestamp)
    requires code != [] && Trimmed(code)
    ensures AcceptInvite(Some(Caller("u2", Some("Alice"), None)), Str(code), SampleStore(code), now)
            == Joined(Update(map["u2" := "editor"], map["u2" := "Alice"], now))
  {
    SampleLookup(Some(Caller("u2", Some("Alice"), None)), code, now);
  }

  /** Without a name claim, the part of the email before its first "@"
      names the member. */
  lemma JoinNamedByEmail(c: Caller, ws: Workspace, now: Timestamp, local: string, domain: string)
    requires !Given(c.name) && c.email == Some(local + ['@'] + domain)
    requires local != [] && '@' !in local
    requires Admit(OwnKeys, c, ws, now).Joined?
    ensures Admit(OwnKeys, c, ws, now).update.memberNames[c.uid] == local
  {
    BeforeFirstStopsAtSeparator(local, '@', domain);
  }

  /** The email "bob@x.com" gives the display name "bob". */
  lemma EmailLocalPart()
    ensures DisplayName(None, Some("bob@x.com")) == "bob"
  {
  }

  /** With neither claim, the member is called "Member". */
  lemma JoinWithoutClaims(code: string, now: Timestamp)
    requires code != [] && Trimmed(code)
    ensures var r := AcceptInvite(Some(Caller("u2", None, None)), Str(code), SampleStore(code), now);
            r.Joined? && r.update.memberNames == map["u2" := FallbackName]
  {
    SampleLookup(Some(Caller("u2", None, None)), code, now);
  }

  /** The owner cannot join their own workspace, and nothing is written. */
  lemma OwnerRejected(code: string, now: Timestamp)
    requires code != [] && Trimmed(code)
    ensures Invoke(Some(Caller("u1", Some("Owner"), None)), Str(code), SampleStore(code), now)
            == Response(Rejected(InvalidArgument), SampleStore(code))
  {
    SampleLookup(Some(Caller("u1", Some("Owner"), None)), code, now);
  }

  /** An absent invite role makes the new member a viewer; a role other
      than editor or viewer is an internal error. */
  lemma RoleDefaults(c: Caller, now: Timestamp)
    requires c.uid != "u1"
    ensures var ws := SampleWorkspace().(inviteRole := Undefined);
            var r := Admit(OwnKeys, c, ws, now);
            r.Joined? && r.update.members[c.uid] == ViewerRole
    ensures Admit(OwnKeys, c, SampleWorkspace().(inviteRole := Str("admin")), now) == Rejected(Internal)
  {
  }

  /** The membership check as written: a caller whose uid is "constructor"
      is turned away as an existing member of a workspace that has no
      members at all, where the own-key reading admits them. */
  lemma PrototypeNameCounterexample(code: string, now: Timestamp)
    requires code != [] && Trimmed(code)
    ensures AcceptInviteAsWritten(Some(Caller("constructor", None, None)), Str(code), SampleStore(code), now)
            == Rejected(FailedPrecondition)
    ensures AcceptInvite(Some(Caller("constructor", None, None)), Str(code), SampleStore(code), now).Joined?
  {
    var c := Caller("constructor", None, None);
    SampleLookup(Some(c), code, now);
    assert AcceptInviteAsWritten(Some(c), Str(code), SampleStore(code), now)
           == Admit(PrototypeChain, c, SampleWorkspace(), now) by {
      assert InviteCode(Str(code)) == Some(code) by {
        TrimIsIdentityOnTrimmed(code);
      }
    }
    assert "constructor" in ObjectPrototypeKeys;
  }
}
