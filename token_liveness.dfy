/** The token index `invitation:invited:{email}` lists only live token records issued
    to that email: which operations keep this, and under what condition. */
module TokenLiveness {
  import opened Wrappers
  import opened KeyValueSets
  import opened InviteState
  import InviteProperties

  lemma EmptyIndexTokensLive()
    ensures TokensLive(EmptyDb)
  {
  }

  /** `deleteFromReferenceList` writes no token key. */
  lemma DeleteFromReferenceListKeepsTokensLive(d: Db, uid: Uid, email: Email)
    requires TokensLive(d)
    ensures TokensLive(AfterDeleteFromReferenceList(d, uid, email))
  {
    InviteProperties.DeleteFromReferenceListEffect(d, uid, email);
  }

  /** The fresh token is listed under its own email only, beside its new record; no
      other record is overwritten. */
  lemma PrepareInvitationKeepsTokensLive(d: Db, uid: Uid, email: Email, token: Token,
                                         groupsToJoin: seq<string>, expireAt: int)
    requires TokensLive(d) && FreshToken(d, token)
    ensures TokensLive(AfterPrepareInvitation(d, uid, email, token, groupsToJoin, expireAt))
  {
    var r := AfterPrepareInvitation(d, uid, email, token, groupsToJoin, expireAt);
    InviteProperties.PrepareInvitationEffect(d, uid, email, token, groupsToJoin, expireAt);
    forall e, t | t in Members(r.tokens, e)
      ensures t in r.records && r.records[t].invitation.email == e
    {
      if t != token {
        assert t in Members(d.tokens, e);
        assert t in d.records - {token};
        assert r.records[t] == (r.records - {token})[t];
      }
    }
  }

  /** `deleteInvitation` keeps the token index live whenever the token it removes is
      listed under no other email. */
  lemma DeleteInvitationKeepsTokensLive(d: Db, uid: Uid, email: Email, token: Option<Token>)
    requires TokensLive(d)
    requires token.Some? ==> forall e | e != email :: token.value !in Members(d.tokens, e)
    ensures TokensLive(AfterDeleteInvitation(d, uid, email, token))
  {
    var r := AfterDeleteInvitation(d, uid, email, token);
    InviteProperties.DeleteFromReferenceListEffect(d, uid, email);
    forall e, t | t in Members(r.tokens, e)
      ensures t in r.records && r.records[t].invitation.email == e
    {
      assert t in Members(d.tokens, e);
    }
  }

  /** In a valid store the compound record's own token is listed under its own email
      only, so the corrected `deleteInvitation` keeps the token index live. */
  lemma DeleteInvitationByRecordTokenKeepsTokensLive(d: Db, uid: Uid, email: Email)
    requires ValidDb(d) && TokensLive(d)
    ensures TokensLive(AfterDeleteInvitation(d, uid, email, RecordToken(d, uid, email)))
  {
    var token := RecordToken(d, uid, email);
    if token.Some? {
      forall e | e != email ensures token.value !in Members(d.tokens, e) {
      }
    }
    DeleteInvitationKeepsTokensLive(d, uid, email, token);
  }

  /** The email branch deletes the email's whole token set with its records; a token
      listed under another email has a record issued to that email, so it stays. */
  lemma DeleteByEmailKeepsTokensLive(d: Db, email: Email)
    requires TokensLive(d)
    ensures TokensLive(AfterDeleteByEmail(d, email))
  {
    var r := AfterDeleteByEmail(d, email);
    InviteProperties.DeleteReferencesEffect(d, email);
    forall e, t | t in Members(r.tokens, e)
      ensures t in r.records && r.records[t].invitation.email == e
    {
      assert e != email && t in Members(d.tokens, e);
      assert d.records[t].invitation.email == e;
      assert t !in Members(d.tokens, email);
    }
  }

  /** The token branch deletes the record's email's whole token set with this record;
      any other listed token has a record issued to another email, so it stays. */
  lemma DeleteByTokenKeepsTokensLive(d: Db, token: Token)
    requires TokensLive(d)
    ensures TokensLive(AfterDeleteByToken(d, token))
  {
    if token in d.records {
      var r := AfterDeleteByToken(d, token);
      var invite := d.records[token].invitation;
      InviteProperties.DeleteFromReferenceListEffect(d, invite.inviter, invite.email);
      forall e, t | t in Members(r.tokens, e)
        ensures t in r.records && r.records[t].invitation.email == e
      {
        assert t in Members(d.tokens, e);
      }
    }
  }

  lemma DeleteInvitationKeyKeepsTokensLive(d: Db, registrationEmail: Email, token: Token)
    requires TokensLive(d)
    ensures TokensLive(AfterDeleteInvitationKey(d, registrationEmail, token))
  {
    var afterEmail := if registrationEmail != "" then AfterDeleteByEmail(d, registrationEmail) else d;
    if registrationEmail != "" {
      DeleteByEmailKeepsTokensLive(d, registrationEmail);
    }
    DeleteByTokenKeepsTokensLive(afterEmail, token);
  }

  // ---------------------------------------------------------------------------
  // Both invariant families together, one lemma per writing operation
  // ---------------------------------------------------------------------------

  lemma DeleteFromReferenceListKeepsInvariants(d: Db, uid: Uid, email: Email)
    ensures var r := AfterDeleteFromReferenceList(d, uid, email);
      && (ValidDb(d) ==> ValidDb(r))
      && (TokensLive(d) ==> TokensLive(r))
  {
    if ValidDb(d) {
      InviteProperties.DeleteFromReferenceListKeepsValid(d, uid, email);
    }
    if TokensLive(d) {
      DeleteFromReferenceListKeepsTokensLive(d, uid, email);
    }
  }

  lemma PrepareInvitationKeepsInvariants(d: Db, uid: Uid, email: Email, token: Token,
                                         groupsToJoin: seq<string>, expireAt: int)
    requires FreshToken(d, token)
    ensures var r := AfterPrepareInvitation(d, uid, email, token, groupsToJoin, expireAt);
      && (ValidDb(d) ==> ValidDb(r))
      && (TokensLive(d) ==> TokensLive(r))
  {
    if ValidDb(d) {
      InviteProperties.PrepareInvitationKeepsValid(d, uid, email, token, groupsToJoin, expireAt);
    }
    if TokensLive(d) {
      PrepareInvitationKeepsTokensLive(d, uid, email, token, groupsToJoin, expireAt);
    }
  }
}
