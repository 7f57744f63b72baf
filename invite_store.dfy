/** The invitation index as a store object whose five fields are the store's keys,
    with one method per operation of `src/user/invite.ts`. Collaborators (user
    directory, escaping, translation, configuration, clock, UUID) come in as
    parameters. */
module InviteStore {
  import opened Wrappers
  import opened KeyValueSets
  import opened InviteState
  import InviteLemmas
  import InviteProperties
  import TokenLiveness

  /** One entry of `getAllInvites`. */
  datatype InviterInvites = InviterInvites(uid: Uid, invitations: seq<string>)

  function UidsOf(entries: seq<InviterInvites>): (uids: seq<Uid>)
    ensures |uids| == |entries|
    ensures forall i | 0 <= i < |entries| :: uids[i] == entries[i].uid
  {
    seq(|entries|, i requires 0 <= i < |entries| => entries[i].uid)
  }

  /** `emails.map(email => validator.escape(String(email)))`. */
  function EscapeAll(emails: seq<string>, escape: string -> string): (r: seq<string>)
    ensures |r| == |emails|
    ensures forall i | 0 <= i < |emails| :: r[i] == escape(emails[i])
  {
    seq(|emails|, i requires 0 <= i < |emails| => escape(emails[i]))
  }

  /** `r` is the escaped form of some listing of `members`. */
  ghost predicate EscapedListing(r: seq<string>, members: set<string>, escape: string -> string)
  {
    exists emails :: Enumerates(emails, members) && r == EscapeAll(emails, escape)
  }

  class InvitationStore {
    var invitees: map<Uid, set<Email>>      // invitation:uid:{uid}
    var inviters: set<Uid>                  // invitation:uids
    var sent: map<(Uid, Email), Invitation> // invitation:uid:{uid}:invited:{email}
    var tokens: map<Email, set<Token>>      // invitation:invited:{email}
    var records: map<Token, TokenRecord>    // invitation:token:{token}

    function State(): Db
      reads this
    {
      Db(invitees, inviters, sent, tokens, records)
    }

    ghost predicate Valid()
      reads this
    {
      ValidDb(State())
    }

    constructor ()
      ensures State() == EmptyDb && Valid() && TokensLive(State())
    {
      invitees, inviters, sent, tokens, records := map[], {}, map[], map[], map[];
    }

    /** `getInvites(uid)`: the escaped emails of the uid's set, one per member. */
    method GetInvites(uid: Uid, escape: string -> string) returns (r: seq<string>)
      ensures EscapedListing(r, Members(invitees, uid), escape)
      ensures |r| == |Members(invitees, uid)|
    {
      var emails := GetSetMembers(invitees, uid);
      r := EscapeAll(emails, escape);
    }

    /** `getInvitesNumber(uid)`: `setCount` of the uid's set. */
    method GetInvitesNumber(uid: Uid) returns (n: nat)
      ensures n == |Members(invitees, uid)|
    {
      n := |Members(invitees, uid)|;
    }

    /** `getInvitingUsers()`: the members of `invitation:uids`. */
    method GetInvitingUsers() returns (uids: seq<Uid>)
      ensures Enumerates(uids, inviters)
      ensures |uids| == |inviters|
    {
      var index := map["invitation:uids" := inviters];
      uids := GetSetMembers(index, "invitation:uids");
    }

    /** `getAllInvites()`: one entry per inviting uid, each with that uid's invites; in
        a valid store no entry has an empty list. */
    method GetAllInvites(escape: string -> string) returns (r: seq<InviterInvites>)
      ensures Enumerates(UidsOf(r), inviters)
      ensures forall i | 0 <= i < |r| :: EscapedListing(r[i].invitations, Members(invitees, r[i].uid), escape)
      ensures Valid() ==> forall i | 0 <= i < |r| :: r[i].invitations != []
    {
      var uids := GetInvitingUsers();
      r := [];
      for i := 0 to |uids|
        invariant |r| == i
        invariant forall k | 0 <= k < i :: r[k].uid == uids[k]
        invariant forall k | 0 <= k < i ::
          EscapedListing(r[k].invitations, Members(invitees, r[k].uid), escape)
        invariant forall k | 0 <= k < i :: |r[k].invitations| == |Members(invitees, r[k].uid)|
      {
        var invites := GetInvites(uids[i], escape);
        r := r + [InviterInvites(uids[i], invites)];
      }
      assert UidsOf(r) == uids;
    }

    /** `deleteFromReferenceList(uid, email)`. */
    method DeleteFromReferenceList(uid: Uid, email: Email)
      modifies this
      ensures State() == AfterDeleteFromReferenceList(old(State()), uid, email)
      ensures old(Valid()) ==> Valid()
      ensures old(TokensLive(State())) ==> TokensLive(State())
    {
      ghost var d0 := State();
      invitees := SetRemove(invitees, uid, email);
      sent := sent - {(uid, email)};
      var count := |Members(invitees, uid)|;
      if count == 0 {
        inviters := inviters - {uid};
      }
      TokenLiveness.DeleteFromReferenceListKeepsInvariants(d0, uid, email);
    }

    /** `deleteInvitation(invitedBy, email)` as written: the token it removes is the
        scalar the store returns for the compound key, which holds an object. */
    method DeleteInvitation(invitedBy: string, email: Email,
                            uidByUsername: string -> Option<Uid>,
                            storedScalar: Invitation -> string) returns (r: Outcome<string>)
      modifies this
      ensures !Truthy(uidByUsername(invitedBy)) ==> r == Fail(InvalidUsername) && State() == old(State())
      ensures Truthy(uidByUsername(invitedBy)) ==>
        (var uid := uidByUsername(invitedBy).value;
         && r == Pass
         && State() == AfterDeleteInvitation(old(State()), uid, email,
                                             Some(ScalarReadAsToken(old(State()), uid, email, storedScalar))))
      ensures old(Valid()) ==> Valid()
      ensures Truthy(uidByUsername(invitedBy)) && old(TokensLive(State())) &&
              (forall e | e != email ::
                 ScalarReadAsToken(old(State()), uidByUsername(invitedBy).value, email, storedScalar)
                 !in Members(old(tokens), e))
              ==> TokensLive(State())
    {
      ghost var d0 := State();
      var invitedByUid := uidByUsername(invitedBy);
      if !Truthy(invitedByUid) {
        return Fail(InvalidUsername);
      }
      var uid := invitedByUid.value;
      var token := ScalarReadAsToken(State(), uid, email, storedScalar);
      DeleteFromReferenceList(uid, email);
      ghost var p := State();
      tokens := SetRemove(tokens, email, token);
      records := records - {token};
      assert State() == p.(tokens := SetRemove(p.tokens, email, token), records := p.records - {token});
      r := Pass;
      if ValidDb(d0) {
        InviteProperties.DeleteInvitationKeepsValid(d0, uid, email, Some(token));
      }
      if TokensLive(d0) && forall e | e != email :: token !in Members(d0.tokens, e) {
        TokenLiveness.DeleteInvitationKeepsTokensLive(d0, uid, email, Some(token));
      }
    }

    /** `deleteInvitation` reading the token from the compound record's `token` field. */
    method DeleteInvitationByRecordToken(invitedBy: string, email: Email,
                                         uidByUsername: string -> Option<Uid>) returns (r: Outcome<string>)
      modifies this
      ensures !Truthy(uidByUsername(invitedBy)) ==> r == Fail(InvalidUsername) && State() == old(State())
      ensures Truthy(uidByUsername(invitedBy)) ==>
        (var uid := uidByUsername(invitedBy).value;
         && r == Pass
         && State() == AfterDeleteInvitation(old(State()), uid, email, RecordToken(old(State()), uid, email)))
      ensures old(Valid()) ==> Valid()
      ensures old(Valid() && TokensLive(State())) ==> TokensLive(State())
    {
      ghost var d0 := State();
      var invitedByUid := uidByUsername(invitedBy);
      if !Truthy(invitedByUid) {
        return Fail(InvalidUsername);
      }
      var uid := invitedByUid.value;
      var token := RecordToken(State(), uid, email);
      DeleteFromReferenceList(uid, email);
      ghost var p := State();
      if token.Some? {
        tokens := SetRemove(tokens, email, token.value);
        records := records - {token.value};
        assert State() == p.(tokens := SetRemove(p.tokens, email, token.value), records := p.records - {token.value});
      }
      r := Pass;
      if ValidDb(d0) {
        InviteProperties.DeleteInvitationKeepsValid(d0, uid, email, token);
      }
      if ValidDb(d0) && TokensLive(d0) {
        TokenLiveness.DeleteInvitationByRecordTokenKeepsTokensLive(d0, uid, email);
      }
    }

    /** `deleteInvitationKey(registrationEmail, token)`: the email branch, then the
        token branch, each skipped when its argument is empty. */
    method DeleteInvitationKey(registrationEmail: Email, token: Token)
      modifies this
      ensures State() == AfterDeleteInvitationKey(old(State()), registrationEmail, token)
      ensures old(Valid()) ==> Valid()
      ensures old(TokensLive(State())) ==> TokensLive(State())
    {
      ghost var d0 := State();
      if registrationEmail != "" {
        DeleteInvitationsToEmail(registrationEmail);
      }
      if token != "" {
        DeleteInvitationOfToken(token);
      }
      if ValidDb(d0) {
        InviteProperties.DeleteInvitationKeyKeepsValid(d0, registrationEmail, token);
      }
      if TokensLive(d0) {
        TokenLiveness.DeleteInvitationKeyKeepsTokensLive(d0, registrationEmail, token);
      }
    }

    /** The email branch of `deleteInvitationKey`: clean every inviting uid's reference
        list, then delete the email's token set and every token record it lists. */
    method DeleteInvitationsToEmail(email: Email)
      modifies this
      ensures State() == AfterDeleteByEmail(old(State()), email)
    {
      DeleteReferencesToEmail(email);
      var listed := Members(tokens, email);
      tokens := tokens - {email};
      records := records - listed;
    }

    /** `Promise.all(uids.map(uid => deleteFromReferenceList(uid, email)))`. The per-uid
        cleanups touch distinct keys and commute, so they run here one uid at a time,
        in any order. */
    method DeleteReferencesToEmail(email: Email)
      modifies this
      ensures State() == AfterDeleteReferences(old(State()), email, old(inviters))
    {
      ghost var start := State();
      var uids := inviters;
      var pending := uids;
      InviteLemmas.DeleteReferencesNone(start, email);
      while pending != {}
        invariant pending <= uids
        invariant State() == AfterDeleteReferences(start, email, uids - pending)
        decreases pending
      {
        ghost var done := uids - pending;
        var uid :| uid in pending;
        InviteLemmas.DeleteReferencesStep(start, email, done, uid);
        DeleteFromReferenceList(uid, email);
        pending := pending - {uid};
        assert uids - pending == done + {uid};
      }
      assert uids - pending == start.inviters;
    }

    /** The token branch of `deleteInvitationKey`. */
    method DeleteInvitationOfToken(token: Token)
      modifies this
      ensures State() == AfterDeleteByToken(old(State()), token)
    {
      if token !in records {
        return;
      }
      var invite := records[token].invitation;
      DeleteFromReferenceList(invite.inviter, invite.email);
      tokens := tokens - {invite.email};
      records := records - {token};
    }

    /** `prepareInvitation(uid, email, groupsToJoin)`: fails with invalid-uid before any
        write when the inviter does not exist; otherwise writes the indices and both
        records and returns the e-mail payload. `token` is the UUID drawn for this
        invitation and `now` the clock reading. */
    method PrepareInvitation(uid: Uid, email: Email, groupsToJoin: seq<string>,
                             token: Token, now: int, config: MetaConfig, url: string,
                             userExists: Uid -> bool, usernameOf: Uid -> string,
                             translate: (string, string) -> string)
      returns (r: Result<InvitationPayload, string>)
      requires FreshToken(State(), token)
      modifies this
      ensures !userExists(uid) ==> r == Failure(InvalidUid) && State() == old(State())
      ensures userExists(uid) ==>
        && r == Success(BuildPayload(config, url, token, usernameOf(uid), translate))
        && State() == AfterPrepareInvitation(old(State()), uid, email, token, groupsToJoin,
                                             ExpireAt(now, config.inviteExpiration))
      ensures old(Valid()) ==> Valid()
      ensures old(TokensLive(State())) ==> TokensLive(State())
    {
      if !userExists(uid) {
        return Failure(InvalidUid);
      }
      ghost var d0 := State();
      var expireDays := config.inviteExpiration;
      var expireIn := expireDays * MillisecondsPerDay;
      WriteInvitation(uid, email, groupsToJoin, token, now + expireIn);
      TokenLiveness.PrepareInvitationKeepsInvariants(d0, uid, email, token, groupsToJoin, now + expireIn);
      r := Success(BuildPayload(config, url, token, usernameOf(uid), translate));
    }

    /** The store writes of `prepareInvitation`, in the source's order: both index
        sets, the compound record, the email's token set, the token record and its
        expiry. */
    method WriteInvitation(uid: Uid, email: Email, groupsToJoin: seq<string>, token: Token, expireAt: int)
      modifies this
      ensures State() == AfterPrepareInvitation(old(State()), uid, email, token, groupsToJoin, expireAt)
    {
      ghost var d0 := State();
      invitees := SetAdd(invitees, uid, email);
      inviters := inviters + {uid};
      var invitation := Invitation(email, token, groupsToJoin, uid);
      sent := sent[(uid, email) := invitation];
      tokens := SetAdd(tokens, email, token);
      records := records[token := TokenRecord(invitation, None)];
      records := records[token := records[token].(expireAt := Some(expireAt))];
      assert records == d0.records[token := TokenRecord(invitation, Some(expireAt))];
      assert State() == Db(SetAdd(d0.invitees, uid, email), d0.inviters + {uid},
                           d0.sent[(uid, email) := invitation], SetAdd(d0.tokens, email, token),
                           d0.records[token := TokenRecord(invitation, Some(expireAt))]);
    }
  }
}
