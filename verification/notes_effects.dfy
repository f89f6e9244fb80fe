/** What a request does, as the answers to it and to the requests after it show. */
module NotesEffects {
  import opened NotesStore
  import opened Wrappers

  /** The rows an account owns. */
  ghost function OwnIds(s: Store, user: Account): set<int> {
    set id | id in s.notes && s.notes[id].owner == user
  }

  // ---- Deleting a note -------------------------------------------------------------------------------------------

  /** The note is in the table and the account's. */
  predicate Owns(s: Store, user: Account, id: int) {
    id in s.notes && s.notes[id].owner == user
  }

  /**
   * A signed-in caller's delete of an id of at least one takes exactly that row out when it is the caller's, and
   * changes nothing when it is not; another's row is answered as if there were none.
   */
  lemma DeleteTakesOwnNote(s: Store, session: int, id: int)
    requires Caller(s, session).Some? && id >= 1
    ensures var user, r := Caller(s, session).value, DeleteNote(session, Some(id));
      var s', status := After(s, r), Reply(s, r).status;
      && status == (if Owns(s, user, id) then NoContent else NotFound)
      && s'.sessions == s.sessions && (id in s'.notes <==> id in s.notes && status != NoContent)
      && forall other | other != id ::
           && (other in s'.notes <==> other in s.notes)
           && (other in s.notes ==> s'.notes[other] == s.notes[other])
  {
  }

  lemma ListedIfOwn(s: Store, session: int, dto: NoteDto)
    requires Kept(s) && Caller(s, session).Some?
    ensures dto in Reply(s, QueryNotes(session)).notes
      <==> Owns(s, Caller(s, session).value, dto.id) && dto == DtoOf(s.notes[dto.id])
  {
    QueryListsOwn(s, session);
  }

  lemma OwnsAfterDelete(s: Store, session: int, id: int, other: int)
    requires Caller(s, session).Some? && id >= 1
    ensures var user, s' := Caller(s, session).value, After(s, DeleteNote(session, Some(id)));
      && Caller(s', session) == Caller(s, session)
      && (Owns(s', user, other) <==> Owns(s, user, other) && other != id)
      && (Owns(s', user, other) ==> s'.notes[other] == s.notes[other])
  {
  }

  /** A query right after lists what one right before would have, less the note that was deleted. */
  lemma QueryAfterDelete(s: Store, session: int, id: int, dto: NoteDto)
    requires Kept(s) && Caller(s, session).Some? && id >= 1
    ensures var r := DeleteNote(session, Some(id));
      dto in Reply(After(s, r), QueryNotes(session)).notes
      <==> dto in Reply(s, QueryNotes(session)).notes && dto.id != id
  {
    hide After, Reply, Kept, Caller;
    var r := DeleteNote(session, Some(id));
    QuotaKept(s, r);
    OwnsAfterDelete(s, session, id, dto.id);
    ListedIfOwn(s, session, dto);
    ListedIfOwn(After(s, r), session, dto);
  }

  /** Deleting a note a second time finds none and changes nothing. */
  lemma DeleteTwice(s: Store, session: int, id: int)
    requires Caller(s, session).Some? && id >= 1
    ensures var r := DeleteNote(session, Some(id));
      Reply(After(s, r), r).status == NotFound && After(After(s, r), r) == After(s, r)
  {
  }

  // ---- Posting a note --------------------------------------------------------------------------------------------

  /** The body of a post is a note with a text of 1 to 279 bytes. */
  predicate GoodBody(body: Option<NoteDto>) {
    body.Some? && 1 <= |body.value.text| <= 279
  }

  lemma RowsCount(s: Store, user: Account)
    ensures |Rows(s.notes, user)| == |OwnIds(s, user)|
  {
    assert OwnNotes(s.notes, user).Keys == OwnIds(s, user);
    assert |OwnNotes(s.notes, user)| == |OwnNotes(s.notes, user).Keys|;
  }

  /**
   * A signed-in caller's post is stored exactly when its body is good, the caller has fewer than a thousand notes and
   * the id is free; otherwise the first of these that fails names the answer and nothing is stored.
   */
  lemma PostIsAnswered(s: Store, session: int, body: Option<NoteDto>, now: nat, rowId: int)
    requires Caller(s, session).Some?
    ensures var user, r := Caller(s, session).value, PostNote(session, body, now, rowId);
      Reply(s, r).status ==
        if !GoodBody(body) then BadRequest
        else if |OwnIds(s, user)| >= 1000 then Unprocessable
        else if (if body.value.id == 0 then rowId else body.value.id) in s.notes then InternalError
        else Created
  {
    RowsCount(s, Caller(s, session).value);
  }

  /** What a post stores: the posted text, under the caller's account and the time of the request, and nothing else. */
  lemma PostStoresNote(s: Store, session: int, body: Option<NoteDto>, now: nat, rowId: int)
    requires Caller(s, session).Some?
    ensures var user, r := Caller(s, session).value, PostNote(session, body, now, rowId);
      var s' := After(s, r);
      if Reply(s, r).status != Created then s' == s
      else
        var id := if body.value.id == 0 then rowId else body.value.id;
        && id !in s.notes && s'.notes.Keys == s.notes.Keys + {id} && s'.sessions == s.sessions
        && s'.notes[id] == Note(id, user, now, body.value.text)
        && Reply(s, r).notes == [NoteDto(id, now, body.value.text)]
        && forall other | other in s.notes :: s'.notes[other] == s.notes[other]
  {
    hide Rows;
  }

  /** A query right after a stored post lists the note the post was answered with, and what was there before. */
  lemma QueryAfterPost(s: Store, session: int, body: Option<NoteDto>, now: nat, rowId: int, dto: NoteDto)
    requires Kept(s) && Caller(s, session).Some?
    requires Reply(s, PostNote(session, body, now, rowId)).status == Created
    ensures var r := PostNote(session, body, now, rowId);
      dto in Reply(After(s, r), QueryNotes(session)).notes
      <==> dto in Reply(s, QueryNotes(session)).notes || dto in Reply(s, r).notes
  {
    var r := PostNote(session, body, now, rowId);
    PostStoresNote(s, session, body, now, rowId);
    QuotaKept(s, r);
    assert Caller(After(s, r), session) == Caller(s, session);
    hide After, Reply, Kept, Caller;
    ListedIfOwn(s, session, dto);
    ListedIfOwn(After(s, r), session, dto);
  }

  // ---- Signing in and out ----------------------------------------------------------------------------------------

  /** A session signs in exactly while its row is there and not revoked. */
  predicate SignedIn(s: Store, session: int) {
    session in s.sessions && !s.sessions[session].revoked
  }

  /** Every request of a session that is not signed in, and no other, is answered 401, and does nothing. */
  lemma OthersAreShutOut(s: Store, r: Request)
    requires !r.Login?
    ensures Reply(s, r).status == Unauthorized <==> !SignedIn(s, r.session)
    ensures !SignedIn(s, r.session) ==> After(s, r) == s && Reply(s, r) == Response(Unauthorized, [], [])
  {
    hide Rows, OwnSessions, Devices;
  }

  /** A login under a fresh id signs its account in and touches no other session and no note. */
  lemma LoginSignsIn(s: Store, user: Account, now: nat, rowId: int)
    ensures var s' := After(s, Login(user, now, rowId));
      && SignedIn(s', rowId) && Caller(s', rowId) == Some(user) && s'.sessions[rowId].createdAt == now
      && s'.notes == s.notes && s'.sessions.Keys == s.sessions.Keys + {rowId}
      && forall other | other in s.sessions && other != rowId :: s'.sessions[other] == s.sessions[other]
  {
  }

  /** A delete of a session revokes exactly that one, when it is the caller's, and keeps what else its row says. */
  lemma DeleteRevokesOwnSession(s: Store, session: int, id: int)
    requires Caller(s, session).Some? && id >= 1
    ensures var user, r := Caller(s, session).value, DeleteSession(session, Some(id));
      var s', own := After(s, r), id in s.sessions && s.sessions[id].user == user;
      && Reply(s, r).status == (if own then NoContent else NotFound)
      && s'.notes == s.notes && s'.sessions.Keys == s.sessions.Keys
      && (forall other | other in s.sessions && !(own && other == id) :: s'.sessions[other] == s.sessions[other])
      && (own ==> s'.sessions[id] == Session(user, true, s.sessions[id].createdAt) && !SignedIn(s', id))
  {
    DeletedIfOwn(s, session, Some(id));
    hide OwnSessions, DeletedSession;
  }

  /** Both deletes take an id of one at least and nothing else. */
  lemma BadIdsAreRefused(s: Store, session: int, target: Option<int>)
    requires Caller(s, session).Some?
    ensures Reply(s, DeleteNote(session, target)).status == BadRequest <==> target.None? || target.value < 1
    ensures Reply(s, DeleteSession(session, target)).status == BadRequest <==> target.None? || target.value < 1
    ensures (target.None? || target.value < 1) ==>
      After(s, DeleteNote(session, target)) == s && After(s, DeleteSession(session, target)) == s
  {
    hide OwnSessions;
  }

  /** The request that ends a session: its own account's delete of it. */
  predicate Ends(s: Store, r: Request, id: int) {
    && id in s.sessions && id >= 1 && r.DeleteSession? && r.target == Some(id)
    && SignedIn(s, r.session) && s.sessions[r.session].user == s.sessions[id].user
  }

  lemma OneRequestOnSession(s: Store, r: Request, id: int)
    requires Fresh(s, r) && id in s.sessions
    ensures var s' := After(s, r);
      id in s'.sessions && s'.sessions[id] == s.sessions[id].(revoked := s.sessions[id].revoked || Ends(s, r, id))
  {
    hide Rows;
  }

  /** Some request of the run ends the session. */
  predicate EndedIn(s: Store, requests: seq<Request>, id: int)
    decreases |requests|
  {
    requests != [] && (Ends(s, requests[0], id) || EndedIn(After(s, requests[0]), requests[1..], id))
  }

  /** A session that signs in does so until its own account deletes it, and never again after that. */
  lemma {:induction false} SignedInUntilEnded(s: Store, requests: seq<Request>, id: int)
    requires AllFresh(s, requests) && id in s.sessions
    ensures SignedIn(RunFrom(s, requests), id) <==> SignedIn(s, id) && !EndedIn(s, requests, id)
    decreases |requests|
  {
    if requests != [] {
      OneRequestOnSession(s, requests[0], id);
      SignedInUntilEnded(After(s, requests[0]), requests[1..], id);
    }
  }
}
