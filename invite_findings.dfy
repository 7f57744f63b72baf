/** Two places where the invitation index does not behave as its design intends:
    `deleteFromReferenceList` interleaved with `prepareInvitation`, and the
    `groupsToJoin` field read back by `joinGroupsFromInvitation`. */
module InviteFindings {
  import opened Wrappers
  import opened KeyValueSets
  import opened InviteState
  import InviteProperties

  // ---------------------------------------------------------------------------
  // deleteFromReferenceList: the count is read before the uid is dropped
  // ---------------------------------------------------------------------------

  /** Run without interleaving, the three steps of `deleteFromReferenceList` are the
      whole operation. */
  lemma DeleteFromReferenceListInSteps(d: Db, uid: Uid, email: Email)
    ensures AfterDeleteFromReferenceList(d, uid, email)
         == DropInviterAfterCount(RemoveReference(d, uid, email), uid,
                                  |Members(RemoveReference(d, uid, email).invitees, uid)|)
    ensures AfterDeleteFromReferenceList(d, uid, email)
         == DropInviterIfEmpty(RemoveReference(d, uid, email), uid)
  {
  }

  /** The starting store of the run below: uid "1" has invited only "a"; it keeps
      every invariant. */
  lemma SingleInvitationValid()
    ensures ValidDb(AfterPrepareInvitation(EmptyDb, "1", "a", "T1", [], 0))
  {
    InviteProperties.PrepareInvitationKeepsValid(EmptyDb, "1", "a", "T1", [], 0);
  }

  /** As written: uid "1" has invited only "a". `deleteFromReferenceList("1", "a")`
      removes it and counts zero; before it drops "1", `prepareInvitation("1", "b")`
      runs; the drop then removes "1" although its set holds "b". */
  lemma InterleavedPrepareBreaksInviterIndex()
    ensures var d0 := AfterPrepareInvitation(EmptyDb, "1", "a", "T1", [], 0);
      var d1 := RemoveReference(d0, "1", "a");
      var count := |Members(d1.invitees, "1")|;
      var d2 := AfterPrepareInvitation(d1, "1", "b", "T2", [], 0);
      var d3 := DropInviterAfterCount(d2, "1", count);
      && count == 0
      && Members(d3.invitees, "1") == {"b"}
      && "1" !in d3.inviters
      && !InviterIndexExact(d3)
  {
    var d0 := AfterPrepareInvitation(EmptyDb, "1", "a", "T1", [], 0);
    InviteProperties.PrepareInvitationEffect(EmptyDb, "1", "a", "T1", [], 0);
    var d1 := RemoveReference(d0, "1", "a");
    assert Members(d1.invitees, "1") == {};
    var d2 := AfterPrepareInvitation(d1, "1", "b", "T2", [], 0);
    InviteProperties.PrepareInvitationEffect(d1, "1", "b", "T2", [], 0);
    var d3 := DropInviterAfterCount(d2, "1", 0);
    assert Members(d3.invitees, "1") != {} && "1" !in d3.inviters;
  }

  /** The inviter index between the removal and the drop: every uid with a non-empty
      set is listed, and every listed uid other than `uid` has a non-empty set. */
  ghost predicate IndexExactButFor(d: Db, uid: Uid)
  {
    forall u ::
      && (Members(d.invitees, u) != {} ==> u in d.inviters)
      && (u != uid && u in d.inviters ==> Members(d.invitees, u) != {})
  }

  lemma RemoveReferenceLoosensIndex(d: Db, uid: Uid, email: Email)
    requires InviterIndexExact(d)
    ensures IndexExactButFor(RemoveReference(d, uid, email), uid)
  {
    var r := RemoveReference(d, uid, email);
    forall u ensures (Members(r.invitees, u) != {} ==> u in r.inviters)
                  && (u != uid && u in r.inviters ==> Members(r.invitees, u) != {}) {
      assert u in d.inviters <==> Members(d.invitees, u) != {};
    }
  }

  lemma PrepareKeepsLooseIndex(d: Db, uid: Uid, uid2: Uid, email2: Email, token: Token,
                               groupsToJoin: seq<string>, expireAt: int)
    requires IndexExactButFor(d, uid)
    ensures IndexExactButFor(AfterPrepareInvitation(d, uid2, email2, token, groupsToJoin, expireAt), uid)
  {
    var r := AfterPrepareInvitation(d, uid2, email2, token, groupsToJoin, expireAt);
    InviteProperties.PrepareInvitationEffect(d, uid2, email2, token, groupsToJoin, expireAt);
    forall u ensures (Members(r.invitees, u) != {} ==> u in r.inviters)
                  && (u != uid && u in r.inviters ==> Members(r.invitees, u) != {}) {
      assert (Members(d.invitees, u) != {} ==> u in d.inviters)
          && (u != uid && u in d.inviters ==> Members(d.invitees, u) != {});
    }
  }

  lemma DropInviterIfEmptyTightensIndex(d: Db, uid: Uid)
    requires IndexExactButFor(d, uid)
    ensures InviterIndexExact(DropInviterIfEmpty(d, uid))
  {
    var r := DropInviterIfEmpty(d, uid);
    forall u ensures u in r.inviters <==> Members(r.invitees, u) != {} {
      assert (Members(d.invitees, u) != {} ==> u in d.inviters)
          && (u != uid && u in d.inviters ==> Members(d.invitees, u) != {});
    }
  }

  /** Corrected: when the emptiness test and the drop are one step, a `prepareInvitation`
      of any uid slipped in after the removal leaves the inviter index exact. */
  lemma InterleavedPrepareKeepsInviterIndex(d: Db, uid: Uid, email: Email, uid2: Uid, email2: Email,
                                            token: Token, groupsToJoin: seq<string>, expireAt: int)
    requires InviterIndexExact(d)
    ensures InviterIndexExact(DropInviterIfEmpty(
              AfterPrepareInvitation(RemoveReference(d, uid, email), uid2, email2, token, groupsToJoin, expireAt),
              uid))
  {
    var d1 := RemoveReference(d, uid, email);
    RemoveReferenceLoosensIndex(d, uid, email);
    PrepareKeepsLooseIndex(d1, uid, uid2, email2, token, groupsToJoin, expireAt);
    DropInviterIfEmptyTightensIndex(AfterPrepareInvitation(d1, uid2, email2, token, groupsToJoin, expireAt), uid);
  }

  // ---------------------------------------------------------------------------
  // joinGroupsFromInvitation: the field holds the array, not JSON text
  // ---------------------------------------------------------------------------

  lemma ArrayFieldTextOfTwo(a: string, b: string)
    ensures ArrayFieldText([a, b]) == a + "," + b
  {
    assert [a, b][1..] == [b];
  }

  /** As written: `prepareInvitation` stores `groupsToJoin` as an array, whose field
      text is "g1,g2"; `JSON.parse` rejects that text, so after registration no group
      is joined although two were issued. */
  lemma JoinAfterPrepareArrayField(d: Db, uid: Uid, email: Email, token: Token, expireAt: int,
                                   newUid: Uid, parse: string -> Option<seq<string>>)
    requires parse("g1,g2") == None
    ensures JoinGroupsFromInvitation(AfterPrepareInvitation(d, uid, email, token, ["g1", "g2"], expireAt),
                                     newUid, token, ArrayFieldText, parse) == None
  {
    var r := AfterPrepareInvitation(d, uid, email, token, ["g1", "g2"], expireAt);
    InviteProperties.PrepareInvitationEffect(d, uid, email, token, ["g1", "g2"], expireAt);
    ArrayFieldTextOfTwo("g1", "g2");
    assert "g1" + "," + "g2" == "g1,g2";
    assert GroupsField(r, token, ArrayFieldText) == Some("g1,g2");
  }
}
