/** Properties of the invitation index: the invariants each writing operation keeps,
    and what holds across operations. */
module InviteLemmas {
  import opened Wrappers
  import opened KeyValueSets
  import opened InviteState

  lemma StepInvitees(d: Db, email: Email, done: set<Uid>, uid: Uid)
    requires uid !in done
    ensures AfterDeleteFromReferenceList(AfterDeleteReferences(d, email, done), uid, email).invitees
         == AfterDeleteReferences(d, email, done + {uid}).invitees
  {
  }

  lemma StepSent(d: Db, email: Email, done: set<Uid>, uid: Uid)
    requires uid !in done
    ensures AfterDeleteFromReferenceList(AfterDeleteReferences(d, email, done), uid, email).sent
         == AfterDeleteReferences(d, email, done + {uid}).sent
  {
  }

  lemma StepInviters(d: Db, email: Email, done: set<Uid>, uid: Uid)
    requires uid !in done
    ensures AfterDeleteFromReferenceList(AfterDeleteReferences(d, email, done), uid, email).inviters
         == AfterDeleteReferences(d, email, done + {uid}).inviters
  {
  }

  lemma DeleteReferencesNone(d: Db, email: Email)
    ensures AfterDeleteReferences(d, email, {}) == d
  {
  }

  /** One more uid cleaned by the email branch of `deleteInvitationKey`. */
  lemma DeleteReferencesStep(d: Db, email: Email, done: set<Uid>, uid: Uid)
    requires uid !in done
    ensures AfterDeleteFromReferenceList(AfterDeleteReferences(d, email, done), uid, email)
         == AfterDeleteReferences(d, email, done + {uid})
  {
    StepInvitees(d, email, done, uid);
    StepSent(d, email, done, uid);
    StepInviters(d, email, done, uid);
  }
}

module InviteProperties {
  import opened Wrappers
  import opened KeyValueSets
  import opened InviteState

  // ---------------------------------------------------------------------------
  // What each writing operation changes, and what it leaves alone
  // ---------------------------------------------------------------------------

  /** `deleteFromReferenceList(uid, email)`: the email leaves the uid's set and its
      compound record is gone; the uid leaves `invitation:uids` exactly when its set
      became empty; no other uid, compound record or token key changes. */
  lemma DeleteFromReferenceListEffect(d: Db, uid: Uid, email: Email)
    ensures var r := AfterDeleteFromReferenceList(d, uid, email);
      && Members(r.invitees, uid) == Members(d.invitees, uid) - {email}
      && (uid, email) !in r.sent
      && (uid in r.inviters <==> uid in d.inviters && Members(r.invitees, uid) != {})
      && (forall u | u != uid :: Members(r.invitees, u) == Members(d.invitees, u))
      && (forall u | u != uid :: u in r.inviters <==> u in d.inviters)
      && r.sent == d.sent - {(uid, email)}
      && r.tokens == d.tokens && r.records == d.records
  {
  }

  /** `prepareInvitation`'s writes: the email joins the uid's set and the uid joins
      `invitation:uids`; the token joins the email's token set; the token record and
      the compound record hold the same {email, token, groupsToJoin, inviter}; the
      token record expires at `expireAt`; nothing else changes. */
  lemma PrepareInvitationEffect(d: Db, uid: Uid, email: Email, token: Token,
                                groupsToJoin: seq<string>, expireAt: int)
    ensures var r := AfterPrepareInvitation(d, uid, email, token, groupsToJoin, expireAt);
      && Members(r.invitees, uid) == Members(d.invitees, uid) + {email}
      && r.inviters == d.inviters + {uid}
      && (forall u | u != uid :: Members(r.invitees, u) == Members(d.invitees, u))
      && Members(r.tokens, email) == Members(d.tokens, email) + {token}
      && (forall e | e != email :: Members(r.tokens, e) == Members(d.tokens, e))
      && token in r.records
      && r.records[token] == TokenRecord(Invitation(email, token, groupsToJoin, uid), Some(expireAt))
      && r.sent == d.sent[(uid, email) := r.records[token].invitation]
      && r.records - {token} == d.records - {token}
  {
  }

  /** `deleteInvitation` with the token it read: the reference-list cleanup, the token
      leaves the email's token set and its record is deleted; no record appears. */
  lemma DeleteInvitationEffect(d: Db, uid: Uid, email: Email, token: Option<Token>)
    ensures var r := AfterDeleteInvitation(d, uid, email, token);
      && email !in Members(r.invitees, uid) && (uid, email) !in r.sent
      && (uid in r.inviters <==> uid in d.inviters && Members(r.invitees, uid) != {})
      && (token.Some? ==> token.value !in r.records && token.value !in Members(r.tokens, email))
      && (token.None? ==> r.records == d.records && r.tokens == d.tokens)
      && r.records.Keys <= d.records.Keys
  {
    DeleteFromReferenceListEffect(d, uid, email);
  }

  /** The email branch of `deleteInvitationKey` deletes the email's token set and
      every token record it listed, and no other token record. */
  lemma DeleteByEmailEffect(d: Db, email: Email)
    ensures var r := AfterDeleteByEmail(d, email);
      && email !in r.tokens
      && (forall t | t in Members(d.tokens, email) :: t !in r.records)
      && r.records == d.records - Members(d.tokens, email)
  {
  }

  /** The token branch of `deleteInvitationKey`: nothing without a record; otherwise
      the record's inviter no longer lists the email, the email's whole token set is
      gone, and of the token records only this one is deleted. */
  lemma DeleteByTokenEffect(d: Db, token: Token)
    ensures var r := AfterDeleteByToken(d, token);
      && (token !in d.records ==> r == d)
      && token !in r.records
      && (token in d.records ==>
            var invite := d.records[token].invitation;
            && invite.email !in r.tokens
            && invite.email !in Members(r.invitees, invite.inviter)
            && (invite.inviter, invite.email) !in r.sent
            && r.records == d.records - {token})
  {
    if token in d.records {
      var invite := d.records[token].invitation;
      DeleteFromReferenceListEffect(d, invite.inviter, invite.email);
    }
  }

  /** The two branches of `deleteInvitationKey` are independent: an empty argument
      skips its branch, and with both empty the store is unchanged. */
  lemma DeleteInvitationKeyBranches(d: Db, registrationEmail: Email, token: Token)
    ensures var r := AfterDeleteInvitationKey(d, registrationEmail, token);
      && (registrationEmail == "" && token == "" ==> r == d)
      && (registrationEmail == "" && token != "" ==> r == AfterDeleteByToken(d, token))
      && (registrationEmail != "" && token == "" ==> r == AfterDeleteByEmail(d, registrationEmail))
      && (registrationEmail != "" && token != "" ==>
            r == AfterDeleteByToken(AfterDeleteByEmail(d, registrationEmail), token))
      && (token != "" ==> token !in r.records)
  {
    if token != "" {
      DeleteByTokenEffect(if registrationEmail != "" then AfterDeleteByEmail(d, registrationEmail) else d, token);
    }
  }

  // ---------------------------------------------------------------------------
  // Each writing operation keeps the invariants
  // ---------------------------------------------------------------------------

  /** `deleteFromReferenceList` keeps "uid in invitation:uids exactly when its set is
      non-empty": it drops the uid after the count reaches zero. */
  lemma DeleteFromReferenceListKeepsInviterIndex(d: Db, uid: Uid, email: Email)
    requires InviterIndexExact(d)
    ensures InviterIndexExact(AfterDeleteFromReferenceList(d, uid, email))
  {
    var r := AfterDeleteFromReferenceList(d, uid, email);
    DeleteFromReferenceListEffect(d, uid, email);
    forall u ensures u in r.inviters <==> Members(r.invitees, u) != {} {
      assert u in d.inviters <==> Members(d.invitees, u) != {};
    }
  }

  lemma DeleteFromReferenceListKeepsSentMatch(d: Db, uid: Uid, email: Email)
    requires SentMatchesInvitees(d)
    ensures SentMatchesInvitees(AfterDeleteFromReferenceList(d, uid, email))
  {
    var r := AfterDeleteFromReferenceList(d, uid, email);
    DeleteFromReferenceListEffect(d, uid, email);
    forall u, e ensures (u, e) in r.sent <==> e in Members(r.invitees, u) {
      assert (u, e) in d.sent <==> e in Members(d.invitees, u);
    }
  }

  lemma DeleteFromReferenceListKeepsValid(d: Db, uid: Uid, email: Email)
    requires ValidDb(d)
    ensures ValidDb(AfterDeleteFromReferenceList(d, uid, email))
  {
    DeleteFromReferenceListKeepsInviterIndex(d, uid, email);
    DeleteFromReferenceListKeepsSentMatch(d, uid, email);
    DeleteFromReferenceListEffect(d, uid, email);
  }

  /** `prepareInvitation`'s paired `setAdd`s keep "uid in invitation:uids exactly when
      its set is non-empty". */
  lemma PrepareInvitationKeepsInviterIndex(d: Db, uid: Uid, email: Email, token: Token,
                                           groupsToJoin: seq<string>, expireAt: int)
    requires InviterIndexExact(d)
    ensures InviterIndexExact(AfterPrepareInvitation(d, uid, email, token, groupsToJoin, expireAt))
  {
    var r := AfterPrepareInvitation(d, uid, email, token, groupsToJoin, expireAt);
    PrepareInvitationEffect(d, uid, email, token, groupsToJoin, expireAt);
    forall u ensures u in r.inviters <==> Members(r.invitees, u) != {} {
      assert u in d.inviters <==> Members(d.invitees, u) != {};
    }
  }

  lemma PrepareInvitationKeepsSentMatch(d: Db, uid: Uid, email: Email, token: Token,
                                        groupsToJoin: seq<string>, expireAt: int)
    requires SentMatchesInvitees(d)
    ensures SentMatchesInvitees(AfterPrepareInvitation(d, uid, email, token, groupsToJoin, expireAt))
  {
    var r := AfterPrepareInvitation(d, uid, email, token, groupsToJoin, expireAt);
    PrepareInvitationEffect(d, uid, email, token, groupsToJoin, expireAt);
    forall u, e ensures (u, e) in r.sent <==> e in Members(r.invitees, u) {
      assert (u, e) in d.sent <==> e in Members(d.invitees, u);
    }
  }

  /** With a fresh token, the two records `prepareInvitation` writes agree with each
      other and with every compound record already stored. */
  lemma PrepareInvitationKeepsRecords(d: Db, uid: Uid, email: Email, token: Token,
                                      groupsToJoin: seq<string>, expireAt: int)
    requires RecordsKeyed(d) && CopiesAgree(d) && FreshToken(d, token)
    ensures var r := AfterPrepareInvitation(d, uid, email, token, groupsToJoin, expireAt);
      RecordsKeyed(r) && CopiesAgree(r)
  {
    var r := AfterPrepareInvitation(d, uid, email, token, groupsToJoin, expireAt);
    PrepareInvitationEffect(d, uid, email, token, groupsToJoin, expireAt);
    forall p | p in r.sent && r.sent[p].token in r.records
      ensures r.records[r.sent[p].token].invitation == r.sent[p]
    {
      if p != (uid, email) {
        assert p in d.sent;
        assert r.sent[p].token != token;
      }
    }
  }

  lemma PrepareInvitationKeepsValid(d: Db, uid: Uid, email: Email, token: Token,
                                    groupsToJoin: seq<string>, expireAt: int)
    requires ValidDb(d) && FreshToken(d, token)
    ensures ValidDb(AfterPrepareInvitation(d, uid, email, token, groupsToJoin, expireAt))
  {
    PrepareInvitationKeepsInviterIndex(d, uid, email, token, groupsToJoin, expireAt);
    PrepareInvitationKeepsSentMatch(d, uid, email, token, groupsToJoin, expireAt);
    PrepareInvitationKeepsRecords(d, uid, email, token, groupsToJoin, expireAt);
  }

  lemma DeleteInvitationKeepsValid(d: Db, uid: Uid, email: Email, token: Option<Token>)
    requires ValidDb(d)
    ensures ValidDb(AfterDeleteInvitation(d, uid, email, token))
  {
    DeleteFromReferenceListKeepsValid(d, uid, email);
  }

  /** The per-uid loop of the email branch, over all of `invitation:uids`: every
      inviting uid loses the email, a uid leaves the index exactly when its set became
      empty, and the compound records of those pairs are gone. */
  lemma DeleteReferencesEffect(d: Db, email: Email)
    ensures var r := AfterDeleteReferences(d, email, d.inviters);
      && (forall u :: Members(r.invitees, u)
                   == if u in d.inviters then Members(d.invitees, u) - {email} else Members(d.invitees, u))
      && (forall u :: u in r.inviters <==> u in d.inviters && Members(r.invitees, u) != {})
      && (forall u, e :: (u, e) in r.sent <==> (u, e) in d.sent && !(u in d.inviters && e == email))
      && (forall p | p in r.sent :: r.sent[p] == d.sent[p])
      && r.tokens == d.tokens && r.records == d.records
  {
  }

  lemma DeleteReferencesKeepsInviterIndex(d: Db, email: Email)
    requires InviterIndexExact(d)
    ensures InviterIndexExact(AfterDeleteReferences(d, email, d.inviters))
    ensures forall u :: Members(AfterDeleteReferences(d, email, d.inviters).invitees, u)
                     == Members(d.invitees, u) - {email}
  {
    var r := AfterDeleteReferences(d, email, d.inviters);
    DeleteReferencesEffect(d, email);
    forall u ensures Members(r.invitees, u) == Members(d.invitees, u) - {email} {
      assert u in d.inviters <==> Members(d.invitees, u) != {};
    }
  }

  lemma DeleteReferencesKeepsSentMatch(d: Db, email: Email)
    requires InviterIndexExact(d) && SentMatchesInvitees(d)
    ensures SentMatchesInvitees(AfterDeleteReferences(d, email, d.inviters))
  {
    var r := AfterDeleteReferences(d, email, d.inviters);
    DeleteReferencesEffect(d, email);
    forall u, e ensures (u, e) in r.sent <==> e in Members(r.invitees, u) {
      assert (u, e) in d.sent <==> e in Members(d.invitees, u);
      assert u in d.inviters <==> Members(d.invitees, u) != {};
    }
  }

  lemma DeleteReferencesKeepsValid(d: Db, email: Email)
    requires ValidDb(d)
    ensures ValidDb(AfterDeleteReferences(d, email, d.inviters))
    ensures forall u :: Members(AfterDeleteReferences(d, email, d.inviters).invitees, u)
                     == Members(d.invitees, u) - {email}
  {
    DeleteReferencesKeepsInviterIndex(d, email);
    DeleteReferencesKeepsSentMatch(d, email);
    DeleteReferencesEffect(d, email);
  }

  lemma DeleteByEmailKeepsValid(d: Db, email: Email)
    requires ValidDb(d)
    ensures ValidDb(AfterDeleteByEmail(d, email))
  {
    DeleteReferencesKeepsValid(d, email);
  }

  lemma DeleteByTokenKeepsValid(d: Db, token: Token)
    requires ValidDb(d)
    ensures ValidDb(AfterDeleteByToken(d, token))
  {
    if token in d.records {
      var invite := d.records[token].invitation;
      DeleteFromReferenceListKeepsValid(d, invite.inviter, invite.email);
    }
  }

  lemma DeleteInvitationKeyKeepsValid(d: Db, registrationEmail: Email, token: Token)
    requires ValidDb(d)
    ensures ValidDb(AfterDeleteInvitationKey(d, registrationEmail, token))
  {
    var afterEmail := if registrationEmail != "" then AfterDeleteByEmail(d, registrationEmail) else d;
    if registrationEmail != "" {
      DeleteByEmailKeepsValid(d, registrationEmail);
    }
    DeleteByTokenKeepsValid(afterEmail, token);
  }

  // ---------------------------------------------------------------------------
  // Cleanup by registration email
  // ---------------------------------------------------------------------------

  /** After the email branch no uid still lists the email, no compound record names
      it, the email's token set is gone and so is every token record it listed. */
  lemma DeleteByEmailClearsEmail(d: Db, email: Email)
    requires ValidDb(d)
    ensures var r := AfterDeleteByEmail(d, email);
      && (forall u :: email !in Members(r.invitees, u) && (u, email) !in r.sent)
      && Members(r.tokens, email) == {}
      && (forall t | t in Members(d.tokens, email) :: t !in r.records)
  {
    DeleteReferencesKeepsValid(d, email);
    var r := AfterDeleteByEmail(d, email);
    forall u ensures (u, email) !in r.sent {
      assert (u, email) in r.sent <==> email in Members(r.invitees, u) by {
        DeleteByEmailKeepsValid(d, email);
      }
    }
  }

  /** Issuing an invitation and then cleaning up by its email leaves no trace of the
      email in the indices, and its token record is gone, whoever issued it. */
  lemma PrepareThenDeleteByEmail(d: Db, uid: Uid, email: Email, token: Token,
                                 groupsToJoin: seq<string>, expireAt: int)
    requires ValidDb(d) && FreshToken(d, token)
    ensures var r := AfterDeleteByEmail(AfterPrepareInvitation(d, uid, email, token, groupsToJoin, expireAt), email);
      && Members(r.tokens, email) == {}
      && token !in r.records
      && (forall u :: email !in Members(r.invitees, u))
  {
    var p := AfterPrepareInvitation(d, uid, email, token, groupsToJoin, expireAt);
    PrepareInvitationKeepsValid(d, uid, email, token, groupsToJoin, expireAt);
    DeleteByEmailClearsEmail(p, email);
  }

  /** The single-invitation scenario, first half: with an empty index, uid invites one
      email; `getAllInvites` then has the one entry (uid, [email]). */
  lemma InviteIntoEmptyIndex(d: Db, uid: Uid, email: Email, token: Token,
                             groupsToJoin: seq<string>, expireAt: int)
    requires InviterIndexExact(d) && d.inviters == {}
    ensures var p := AfterPrepareInvitation(d, uid, email, token, groupsToJoin, expireAt);
      p.inviters == {uid} && Members(p.invitees, uid) == {email}
  {
    assert uid in d.inviters <==> Members(d.invitees, uid) != {};
    PrepareInvitationEffect(d, uid, email, token, groupsToJoin, expireAt);
  }

  /** The second half: that email registers and is cleaned up; `invitation:uids` is
      empty again, so `getAllInvites` returns no entry. */
  lemma InviteThenRegisterEmptiesIndex(d: Db, uid: Uid, email: Email, token: Token,
                                       groupsToJoin: seq<string>, expireAt: int)
    requires ValidDb(d) && FreshToken(d, token) && d.inviters == {}
    ensures var p := AfterPrepareInvitation(d, uid, email, token, groupsToJoin, expireAt);
      AfterDeleteByEmail(p, email).inviters == {}
  {
    var p := AfterPrepareInvitation(d, uid, email, token, groupsToJoin, expireAt);
    PrepareInvitationKeepsValid(d, uid, email, token, groupsToJoin, expireAt);
    DeleteReferencesKeepsValid(p, email);
  }

  // ---------------------------------------------------------------------------
  // Registration-time decisions against the issued record
  // ---------------------------------------------------------------------------

  /** Registering with the invited address confirms it; any other address does not. */
  lemma ConfirmAfterPrepare(d: Db, uid: Uid, email: Email, token: Token, groupsToJoin: seq<string>,
                            expireAt: int, enteredEmail: Email, newUid: Uid)
    ensures ConfirmIfInviteEmailIsUsed(AfterPrepareInvitation(d, uid, email, token, groupsToJoin, expireAt),
                                       token, enteredEmail, newUid)
         == if enteredEmail != "" && enteredEmail == email then Some(newUid) else None
  {
  }

  /** Once an email's invitations are cleaned up, none of its tokens confirms anything. */
  lemma ConfirmAfterDeleteByEmail(d: Db, email: Email, token: Token, enteredEmail: Email, newUid: Uid)
    requires token in Members(d.tokens, email)
    ensures ConfirmIfInviteEmailIsUsed(AfterDeleteByEmail(d, email), token, enteredEmail, newUid) == None
  {
  }

  /** When the store's field rendering of the list parses back to the list, the
      join call after registration carries exactly the groups given at issue time,
      and there is none for an empty list. */
  lemma JoinAfterPrepare(d: Db, uid: Uid, email: Email, token: Token, groupsToJoin: seq<string>,
                         expireAt: int, newUid: Uid,
                         render: seq<string> -> string, parse: string -> Option<seq<string>>)
    requires render(groupsToJoin) != "" && parse(render(groupsToJoin)) == Some(groupsToJoin)
    ensures JoinGroupsFromInvitation(AfterPrepareInvitation(d, uid, email, token, groupsToJoin, expireAt),
                                     newUid, token, render, parse)
         == if groupsToJoin != [] then Some(JoinCall(groupsToJoin, newUid)) else None
  {
  }

  /** A deleted token record yields no join call. */
  lemma JoinAfterDeleteByToken(d: Db, token: Token, newUid: Uid,
                               render: seq<string> -> string, parse: string -> Option<seq<string>>)
    ensures JoinGroupsFromInvitation(AfterDeleteByToken(d, token), newUid, token, render, parse) == None
  {
  }

  // ---------------------------------------------------------------------------
  // deleteInvitation: the token read from the compound key
  // ---------------------------------------------------------------------------

  /** As written: whenever the store's scalar reading of the compound record is not
      the invitation's token, the live token record and its index entry survive. */
  lemma DeleteInvitationAsWrittenKeepsToken(d: Db, uid: Uid, email: Email, storedScalar: Invitation -> string)
    requires ValidDb(d) && (uid, email) in d.sent
    requires d.sent[(uid, email)].token in d.records
    requires d.sent[(uid, email)].token in Members(d.tokens, email)
    requires storedScalar(d.sent[(uid, email)]) != d.sent[(uid, email)].token
    ensures var t := d.sent[(uid, email)].token;
      var r := AfterDeleteInvitation(d, uid, email, Some(ScalarReadAsToken(d, uid, email, storedScalar)));
      t in r.records && t in Members(r.tokens, email)
  {
  }

  /** A concrete run: uid "1" invites "bob@example.com" with token "T"; the store reads
      the object under the compound key back as "[object Object]"; deleting the
      invitation leaves record "T" live and still listed for the email. */
  lemma DeleteInvitationAsWrittenCounterexample()
    ensures var d := AfterPrepareInvitation(EmptyDb, "1", "bob@example.com", "T", [], 0);
      var r := AfterDeleteInvitation(d, "1", "bob@example.com",
                                     Some(ScalarReadAsToken(d, "1", "bob@example.com", _ => "[object Object]")));
      && "bob@example.com" !in Members(r.invitees, "1")
      && "T" in r.records
      && "T" in Members(r.tokens, "bob@example.com")
  {
    var d := AfterPrepareInvitation(EmptyDb, "1", "bob@example.com", "T", [], 0);
    assert "T" != "[object Object]";
  }

  /** Corrected: reading the token from the compound record removes the invitation
      from every index and deletes its token record, keeping the invariants. */
  lemma DeleteInvitationByRecordTokenRemovesInvitation(d: Db, uid: Uid, email: Email)
    requires ValidDb(d)
    ensures var r := AfterDeleteInvitation(d, uid, email, RecordToken(d, uid, email));
      && ValidDb(r)
      && email !in Members(r.invitees, uid)
      && (uid in r.inviters <==> Members(r.invitees, uid) != {})
      && ((uid, email) in d.sent ==>
            var t := d.sent[(uid, email)].token;
            t !in r.records && t !in Members(r.tokens, email))
  {
    DeleteInvitationKeepsValid(d, uid, email, RecordToken(d, uid, email));
  }
}
