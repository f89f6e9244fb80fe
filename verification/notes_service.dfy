/** The service's handlers over its two tables. */
module NotesService {
  import opened IdOrder
  import opened NotesStore
  import opened Wrappers

  class Service {
    var notes: map<int, Note>
    var sessions: map<int, Session>

    /** The tables as a value. */
    function Tables(): Store
      reads this
    {
      Store(notes, sessions)
    }

    constructor ()
      ensures Tables() == EMPTY
    {
      notes, sessions := map[], map[];
    }

    /** The rows as they cross to the client. */
    static method ListNotes(rows: seq<Note>) returns (listed: seq<NoteDto>)
      ensures listed == Dtos(rows)
    {
      listed := [];
      for index := 0 to |rows|
        invariant listed == Dtos(rows)[..index]
      {
        listed := listed + [DtoOf(rows[index])];
      }
    }

    method HandleNotesQuery(session: int) returns (response: Response)
      ensures response == QueriedNotes(Tables(), session)
    {
      var who := Caller(Tables(), session);
      if who.None? {
        return Answer(Unauthorized);
      }
      var rows := Rows(notes, who.value);
      var listed := ListNotes(rows);
      return Response(Ok, listed, []);
    }

    method HandleNotesPost(session: int, body: Option<NoteDto>, now: nat, rowId: int) returns (response: Response)
      modifies this`notes
      ensures (Tables(), response) == PostedNote(old(Tables()), session, body, now, rowId)
    {
      var who := Caller(Tables(), session);
      if who.None? {
        return Answer(Unauthorized);
      }
      if body.None? || !TextOk(body.value.text) {
        return Answer(BadRequest);
      }
      var held := |Rows(notes, who.value)|;
      if held >= NOTES_PER_USER {
        return Answer(Unprocessable);
      }
      var id := if body.value.id == 0 then rowId else body.value.id;
      if id in notes {
        return Answer(InternalError);
      }
      var note := Note(id, who.value, now, body.value.text);
      notes := notes[id := note];
      return Response(Created, [DtoOf(note)], []);
    }

    method HandleNotesDelete(session: int, target: Option<int>) returns (response: Response)
      modifies this`notes
      ensures (Tables(), response) == DeletedNote(old(Tables()), session, target)
    {
      var who := Caller(Tables(), session);
      if who.None? {
        return Answer(Unauthorized);
      }
      if !IdOk(target) {
        return Answer(BadRequest);
      }
      if target.value !in notes {
        return Answer(NotFound);
      }
      if notes[target.value].owner != who.value {
        return Answer(NotFound);
      }
      notes := notes - {target.value};
      return Answer(NoContent);
    }

    /** The ids of an account's sessions, newest first. */
    method SessionIds(user: Account) returns (ids: seq<int>)
      ensures forall id :: id in ids <==> id in sessions && sessions[id].user == user
      ensures forall i, j | 0 <= i < j < |ids| :: Newer(sessions, ids[i], ids[j])
      ensures ids == NewestFirst(OwnSessions(sessions, user))
    {
      ids := NewestFirst(OwnSessions(sessions, user));
      assert forall i | 0 <= i < |ids| :: ids[i] in ids;
    }

    /** Revokes a session, or says that there is none of that id. */
    method Revoke(id: int) returns (ok: bool)
      modifies this`sessions
      ensures ok == (id in old(sessions))
      ensures sessions == if ok then old(sessions)[id := old(sessions)[id].(revoked := true)] else old(sessions)
    {
      if id !in sessions {
        return false;
      }
      if sessions[id].revoked {
        assert sessions[id := sessions[id].(revoked := true)] == sessions;
        return true;
      }
      sessions := sessions[id := sessions[id].(revoked := true)];
      return true;
    }

    /** The rows of a list of sessions, one device each. */
    static method ListDevices(own: map<int, Session>, ids: seq<int>) returns (listed: seq<Device>)
      requires ids == NewestFirst(own)
      ensures listed == Devices(own)
    {
      hide NewestFirst;
      assert forall i | 0 <= i < |ids| :: ids[i] in ids;
      hide Newer, InOrder;
      listed := [];
      for index := 0 to |ids|
        invariant |listed| == index
        invariant forall i | 0 <= i < index :: listed[i] == Device(ids[i], own[ids[i]].createdAt, own[ids[i]].revoked)
      {
        var row := own[ids[index]];
        listed := listed + [Device(ids[index], row.createdAt, row.revoked)];
      }
    }

    method HandleSessionsList(session: int) returns (response: Response)
      ensures response == ListedSessions(Tables(), session)
    {
      var who := Caller(Tables(), session);
      if who.None? {
        return Answer(Unauthorized);
      }
      var own := OwnSessions(sessions, who.value);
      hide NewestFirst, OwnSessions, Newer, Caller, Devices;
      var ids := SessionIds(who.value);
      var listed := ListDevices(own, ids);
      return Response(Ok, [], listed);
    }

    /** Revokes a session that is on the list. */
    method RevokeAmong(ids: seq<int>, target: int) returns (response: Response)
      modifies this`sessions
      ensures if target !in ids then sessions == old(sessions) && response == Answer(NotFound)
              else if target !in old(sessions) then sessions == old(sessions) && response == Answer(InternalError)
              else response == Answer(NoContent)
                   && sessions == old(sessions)[target := old(sessions)[target].(revoked := true)]
    {
      for index := 0 to |ids|
        invariant target !in ids[..index]
        invariant sessions == old(sessions)
      {
        if ids[index] != target {
          continue;
        }
        var ok := Revoke(target);
        return if ok then Answer(NoContent) else Answer(InternalError);
      }
      assert ids[..|ids|] == ids;
      return Answer(NotFound);
    }

    method HandleSessionsDelete(session: int, target: Option<int>) returns (response: Response)
      modifies this`sessions
      ensures (Tables(), response) == DeletedSession(old(Tables()), session, target)
    {
      var who := Caller(Tables(), session);
      if who.None? {
        return Answer(Unauthorized);
      }
      if !IdOk(target) {
        return Answer(BadRequest);
      }
      DeletedIfOwn(Tables(), session, target);
      hide NewestFirst, OwnSessions, DeletedSession, Newer, Caller;
      var ids := SessionIds(who.value);
      response := RevokeAmong(ids, target.value);
    }
  }
}
