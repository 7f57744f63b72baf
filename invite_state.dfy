/** The five invitation structures of the key-value store as one value, the
    invariants the operations keep, the effect of each writing operation on
    that value, and the read-only decisions taken after registration. */
module InviteState {
  import opened Wrappers
  import opened KeyValueSets

  type Uid = string
  type Email = string
  type Token = string

  const MillisecondsPerDay: int := 86400000
  const InvalidUid: string := "[[error:invalid-uid]]"
  const InvalidUsername: string := "[[error:invalid-username]]"
  const RegisterPath: string := "/register?token="
  const DefaultSiteTitle: string := "NodeBB"
  const DefaultLanguage: string := "en"
  const InvitationTemplate: string := "invitation"

  /** The record written both under the (inviter, email) key and under the token key. */
  datatype Invitation = Invitation(email: Email, token: Token, groupsToJoin: seq<string>, inviter: Uid)

  /** `invitation:token:{token}`: the record and the absolute expiry set by `pexpireAt`. */
  datatype TokenRecord = TokenRecord(invitation: Invitation, expireAt: Option<int>)

  datatype Db = Db(
    invitees: map<Uid, set<Email>>,        // invitation:uid:{uid}
    inviters: set<Uid>,                    // invitation:uids
    sent: map<(Uid, Email), Invitation>,   // invitation:uid:{uid}:invited:{email}
    tokens: map<Email, set<Token>>,        // invitation:invited:{email}
    records: map<Token, TokenRecord>)      // invitation:token:{token}

  const EmptyDb: Db := Db(map[], {}, map[], map[], map[])

  /** JavaScript truthiness of an optional string: present and non-empty. */
  predicate Truthy(o: Option<string>)
  {
    o.Some? && o.value != ""
  }

  // ---------------------------------------------------------------------------
  // Invariants
  // ---------------------------------------------------------------------------

  /** A uid is in `invitation:uids` exactly when its email set is non-empty. */
  ghost predicate InviterIndexExact(d: Db)
  {
    forall u :: u in d.inviters <==> Members(d.invitees, u) != {}
  }

  /** The compound record exists exactly for the emails in the inviter's set. */
  ghost predicate SentMatchesInvitees(d: Db)
  {
    forall u, e :: (u, e) in d.sent <==> e in Members(d.invitees, u)
  }

  /** Each record sits under the key built from its own fields. */
  ghost predicate RecordsKeyed(d: Db)
  {
    && (forall p | p in d.sent :: d.sent[p].inviter == p.0 && d.sent[p].email == p.1)
    && (forall t | t in d.records :: d.records[t].invitation.token == t)
  }

  /** While the token record is live, it and the compound record hold the same invitation. */
  ghost predicate CopiesAgree(d: Db)
  {
    forall p | p in d.sent && d.sent[p].token in d.records ::
      d.records[d.sent[p].token].invitation == d.sent[p]
  }

  ghost predicate ValidDb(d: Db)
  {
    InviterIndexExact(d) && SentMatchesInvitees(d) && RecordsKeyed(d) && CopiesAgree(d)
  }

  /** A token from the UUID generator: no record, compound or token-keyed, carries it. */
  ghost predicate FreshToken(d: Db, token: Token)
  {
    token !in d.records && forall p | p in d.sent :: d.sent[p].token != token
  }

  /** Every token listed in `invitation:invited:{email}` has a live token record issued
      to that email. Kept apart from `ValidDb`: `deleteInvitation` as written can break it. */
  ghost predicate TokensLive(d: Db)
  {
    forall e, t | t in Members(d.tokens, e) :: t in d.records && d.records[t].invitation.email == e
  }

  // ---------------------------------------------------------------------------
  // Effects of the writing operations
  // ---------------------------------------------------------------------------

  /** `deleteFromReferenceList(uid, email)`: remove the email and its compound record,
      then drop the uid from `invitation:uids` when its set counts zero. */
  function AfterDeleteFromReferenceList(d: Db, uid: Uid, email: Email): Db
  {
    var invitees := SetRemove(d.invitees, uid, email);
    d.(invitees := invitees,
       sent := d.sent - {(uid, email)},
       inviters := if |Members(invitees, uid)| == 0 then d.inviters - {uid} else d.inviters)
  }

  /** The first two commands of `deleteFromReferenceList`: the email leaves the uid's
      set and its compound record is deleted. */
  function RemoveReference(d: Db, uid: Uid, email: Email): Db
  {
    d.(invitees := SetRemove(d.invitees, uid, email), sent := d.sent - {(uid, email)})
  }

  /** The last command of `deleteFromReferenceList`, guarded by the count read before it. */
  function DropInviterAfterCount(d: Db, uid: Uid, count: nat): Db
  {
    if count == 0 then d.(inviters := d.inviters - {uid}) else d
  }

  /** The guard read in the same step as the removal it guards. */
  function DropInviterIfEmpty(d: Db, uid: Uid): Db
  {
    DropInviterAfterCount(d, uid, |Members(d.invitees, uid)|)
  }

  /** The index writes of `prepareInvitation` (five store writes plus the expiry). */
  function AfterPrepareInvitation(d: Db, uid: Uid, email: Email, token: Token,
                                  groupsToJoin: seq<string>, expireAt: int): Db
  {
    var invitation := Invitation(email, token, groupsToJoin, uid);
    Db(SetAdd(d.invitees, uid, email),
       d.inviters + {uid},
       d.sent[(uid, email) := invitation],
       SetAdd(d.tokens, email, token),
       d.records[token := TokenRecord(invitation, Some(expireAt))])
  }

  /** `deleteInvitation` once the uid is resolved and a token has been read: the
      reference-list cleanup, plus, when there is a token, its removal from the
      email's token set and the deletion of its record. */
  function AfterDeleteInvitation(d: Db, uid: Uid, email: Email, token: Option<Token>): Db
  {
    var p := AfterDeleteFromReferenceList(d, uid, email);
    match token
    case None => p
    case Some(t) => p.(tokens := SetRemove(p.tokens, email, t), records := p.records - {t})
  }

  /** The token that as-written `deleteInvitation` reads: `db.get` of the compound
      key, whose value is an object, rendered by the store as `storedScalar`; a
      missing key reads `null`, which the key template renders as "null". */
  function ScalarReadAsToken(d: Db, uid: Uid, email: Email, storedScalar: Invitation -> string): (t: Token)
    ensures (uid, email) !in d.sent ==> t == "null"
  {
    if (uid, email) in d.sent then storedScalar(d.sent[(uid, email)]) else "null"
  }

  /** The token the compound record actually holds. */
  function RecordToken(d: Db, uid: Uid, email: Email): (t: Option<Token>)
    ensures t.Some? <==> (uid, email) in d.sent
    ensures t.Some? ==> t.value == d.sent[(uid, email)].token
  {
    if (uid, email) in d.sent then Some(d.sent[(uid, email)].token) else None
  }

  /** The email branch of `deleteInvitationKey` part-way: the uids in `done` have had
      `deleteFromReferenceList(uid, email)` applied. */
  function AfterDeleteReferences(d: Db, email: Email, done: set<Uid>): Db
  {
    var invitees := map u | u in d.invitees :: if u in done then d.invitees[u] - {email} else d.invitees[u];
    var inviters := set u | u in d.inviters && !(u in done && Members(invitees, u) == {});
    var sent := map p | p in d.sent && !(p.0 in done && p.1 == email) :: d.sent[p];
    d.(invitees := invitees, inviters := inviters, sent := sent)
  }

  /** The email branch of `deleteInvitationKey`: clean every inviting uid's set, then
      delete the email's token set and every token record it listed. */
  function AfterDeleteByEmail(d: Db, email: Email): Db
  {
    var p := AfterDeleteReferences(d, email, d.inviters);
    p.(tokens := p.tokens - {email}, records := p.records - Members(d.tokens, email))
  }

  /** The token branch of `deleteInvitationKey`: nothing when the record is absent;
      otherwise clean the record's inviter's reference list and delete the whole
      token set of the record's email together with this token's record. */
  function AfterDeleteByToken(d: Db, token: Token): Db
  {
    if token !in d.records then d
    else
      var invite := d.records[token].invitation;
      var p := AfterDeleteFromReferenceList(d, invite.inviter, invite.email);
      p.(tokens := p.tokens - {invite.email}, records := p.records - {token})
  }

  /** `deleteInvitationKey(registrationEmail, token)`: two independent branches, each
      skipped when its argument is empty. */
  function AfterDeleteInvitationKey(d: Db, registrationEmail: Email, token: Token): Db
  {
    var afterEmail := if registrationEmail != "" then AfterDeleteByEmail(d, registrationEmail) else d;
    if token != "" then AfterDeleteByToken(afterEmail, token) else afterEmail
  }

  // ---------------------------------------------------------------------------
  // Read-only decisions taken after registration
  // ---------------------------------------------------------------------------

  /** `confirmIfInviteEmailIsUsed(token, enteredEmail, uid)`: the uid handed to
      `confirmByUid`, or None when no confirmation is made. */
  function ConfirmIfInviteEmailIsUsed(d: Db, token: Token, enteredEmail: Email, uid: Uid): (confirmed: Option<Uid>)
    ensures confirmed.Some? <==>
      enteredEmail != "" && token in d.records && d.records[token].invitation.email == enteredEmail
    ensures confirmed.Some? ==> confirmed.value == uid
  {
    if enteredEmail == "" then None
    else
      var email := if token in d.records then Some(d.records[token].invitation.email) else None;
      if Truthy(email) && email.value == enteredEmail then Some(uid) else None
  }

  /** The call `groups.join(groupsToJoin, uid)`. */
  datatype JoinCall = JoinCall(groups: seq<string>, uid: Uid)

  /** `getObjectField(invitation:token:{token}, 'groupsToJoin')`: the stored list as
      the store renders it into a field, or None without a record. */
  function GroupsField(d: Db, token: Token, render: seq<string> -> string): (field: Option<string>)
    ensures field.Some? <==> token in d.records
  {
    if token in d.records then Some(render(d.records[token].invitation.groupsToJoin)) else None
  }

  /** The text a store field holds for an array value written by `setObject`: the
      elements joined by commas, as JavaScript's `String(array)` gives. */
  function ArrayFieldText(g: seq<string>): string
  {
    if |g| == 0 then "" else if |g| == 1 then g[0] else g[0] + "," + ArrayFieldText(g[1..])
  }

  /** `joinGroupsFromInvitation(uid, token)`: the join call made, or None when the field
      is missing or empty, does not parse (`parse` gives None where `JSON.parse` throws)
      or parses to an empty list. */
  function JoinGroupsFromInvitation(d: Db, uid: Uid, token: Token,
                                    render: seq<string> -> string,
                                    parse: string -> Option<seq<string>>): (call: Option<JoinCall>)
    ensures call.Some? <==>
      && Truthy(GroupsField(d, token, render))
      && parse(GroupsField(d, token, render).value).Some?
      && |parse(GroupsField(d, token, render).value).value| >= 1
    ensures call.Some? ==> call.value.uid == uid && call.value.groups != []
    ensures call.Some? ==> Some(call.value.groups) == parse(GroupsField(d, token, render).value)
  {
    var json := GroupsField(d, token, render);
    if !Truthy(json) then None
    else
      match parse(json.value)
      case None => None
      case Some(groups) => if |groups| < 1 then None else Some(JoinCall(groups, uid))
  }

  // ---------------------------------------------------------------------------
  // The invitation e-mail payload built by prepareInvitation
  // ---------------------------------------------------------------------------

  /** The configuration fields read from `meta.config`. */
  datatype MetaConfig = MetaConfig(defaultLang: string, inviteExpiration: int,
                                   title: Option<string>, browserTitle: Option<string>)

  datatype InvitationPayload = InvitationPayload(
    siteTitle: string, registerLink: string, subject: string,
    username: string, template: string, expireDays: int)

  /** `title || browserTitle || 'NodeBB'`. */
  function SiteTitle(c: MetaConfig): (title: string)
    ensures title != ""
    ensures Truthy(c.title) ==> title == c.title.value
    ensures !Truthy(c.title) && Truthy(c.browserTitle) ==> title == c.browserTitle.value
    ensures !Truthy(c.title) && !Truthy(c.browserTitle) ==> title == DefaultSiteTitle
  {
    if Truthy(c.title) then c.title.value
    else if Truthy(c.browserTitle) then c.browserTitle.value
    else DefaultSiteTitle
  }

  /** `defaultLang || 'en'`. */
  function Language(c: MetaConfig): (lang: string)
    ensures lang != ""
    ensures c.defaultLang != "" ==> lang == c.defaultLang
    ensures c.defaultLang == "" ==> lang == DefaultLanguage
  {
    if c.defaultLang != "" then c.defaultLang else DefaultLanguage
  }

  /** `${url}/register?token=${token}`: the link starts with the site url and the
      token can be read back from its tail. */
  function RegisterLink(url: string, token: Token): (link: string)
    ensures |link| == |url| + |RegisterPath| + |token|
    ensures link[..|url|] == url
    ensures link[|url|..|url| + |RegisterPath|] == RegisterPath
    ensures link[|url| + |RegisterPath|..] == token
  {
    url + RegisterPath + token
  }

  /** `now + inviteExpiration * 86400000`: a whole number of days after `now`. */
  function ExpireAt(now: int, expireDays: int): (at: int)
    ensures (at - now) % MillisecondsPerDay == 0
    ensures (at - now) / MillisecondsPerDay == expireDays
    ensures expireDays > 0 ==> at > now
  {
    now + expireDays * MillisecondsPerDay
  }

  /** The translation key for the subject line. */
  function SubjectKey(title: string): string
  {
    "[[email:invite, " + title + "]]"
  }

  function BuildPayload(c: MetaConfig, url: string, token: Token, username: string,
                        translate: (string, string) -> string): (p: InvitationPayload)
    ensures p.siteTitle == SiteTitle(c) && p.siteTitle != ""
    ensures p.registerLink == RegisterLink(url, token)
    ensures p.subject == translate(SubjectKey(p.siteTitle), Language(c))
    ensures p.username == username
    ensures p.template == InvitationTemplate
    ensures p.expireDays == c.inviteExpiration
  {
    var title := SiteTitle(c);
    InvitationPayload(title, RegisterLink(url, token),
                      translate(SubjectKey(title), Language(c)),
                      username, InvitationTemplate, c.inviteExpiration)
  }
}
