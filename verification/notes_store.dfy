/**
 * The notes service's tables and what each request does to them. The database's choice of a new row's id is an input
 * of the request that inserts it.
 */
module NotesStore {
  import opened IdOrder
  import opened Wrappers

  /** An account with this many notes can post no more. */
  const NOTES_PER_USER: nat := 1000

  /** A stored text is at least one byte shorter than this. */
  const NOTE_TEXT_MAX: nat := 280

  type Account = nat

  /** The stored row. */
  datatype Note = Note(id: int, owner: Account, writtenAt: nat, text: string)

  /** What clients send and are sent; whose note it is stays on the server. */
  datatype NoteDto = NoteDto(id: int, writtenAt: nat, text: string)

  datatype Session = Session(user: Account, revoked: bool, createdAt: nat)

  /** A signed-in device, as its session crosses to the client. */
  datatype Device = Device(id: int, createdAt: nat, revoked: bool)

  datatype Store = Store(notes: map<int, Note>, sessions: map<int, Session>)

  const EMPTY: Store := Store(map[], map[])

  /**
   * A request, with the session its cookie proves. A body that does not parse is None. `rowId` is the id the database
   * would assign. `Login` stands for the accounts module issuing a session.
   */
  datatype Request =
    | Login(user: Account, now: nat, rowId: int)
    | QueryNotes(session: int)
    | PostNote(session: int, body: Option<NoteDto>, now: nat, rowId: int)
    | DeleteNote(session: int, target: Option<int>)
    | ListSessions(session: int)
    | DeleteSession(session: int, target: Option<int>)

  datatype Status = Ok | Created | NoContent | BadRequest | Unauthorized | NotFound | Unprocessable | InternalError

  datatype Response = Response(status: Status, notes: seq<NoteDto>, devices: seq<Device>)

  function Answer(status: Status): Response {
    Response(status, [], [])
  }

  /** The account a session row belongs to, revoked or not. */
  function AccountOf(s: Store, session: int): Option<Account> {
    if session in s.sessions then Some(s.sessions[session].user) else None
  }

  /** The signed-in caller. */
  function Caller(s: Store, session: int): Option<Account> {
    if session in s.sessions && !s.sessions[session].revoked then Some(s.sessions[session].user) else None
  }

  function DtoOf(note: Note): NoteDto {
    NoteDto(note.id, note.writtenAt, note.text)
  }

  /** Neither empty nor too long for its buffer. */
  predicate TextOk(text: string) {
    1 <= |text| < NOTE_TEXT_MAX
  }

  /** The rule on the body of both deletes. */
  predicate IdOk(target: Option<int>) {
    target.Some? && target.value >= 1
  }

  // ---- Rows in id order ----------------------------------------------------------------------------------------

  function OwnNotes(notes: map<int, Note>, user: Account): map<int, Note> {
    map id | id in notes && notes[id].owner == user :: notes[id]
  }

  function OwnSessions(sessions: map<int, Session>, user: Account): map<int, Session> {
    map id | id in sessions && sessions[id].user == user :: sessions[id]
  }

  /** The rows a select by owner returns, in id order. */
  function Rows(notes: map<int, Note>, user: Account): (rows: seq<Note>)
    ensures |rows| == |OwnNotes(notes, user)|
  {
    var own := OwnNotes(notes, user);
    var ids := Ascending(own.Keys);
    seq(|ids|, i requires 0 <= i < |ids| => own[ids[i]])
  }

  function Dtos(rows: seq<Note>): seq<NoteDto> {
    seq(|rows|, i requires 0 <= i < |rows| => DtoOf(rows[i]))
  }

  /** Created later, or at the same time under a greater id. */
  predicate Newer(sessions: map<int, Session>, a: int, b: int) {
    var at, bt := CreatedAt(sessions, a), CreatedAt(sessions, b);
    at > bt || (at == bt && a > b)
  }

  function CreatedAt(sessions: map<int, Session>, id: int): nat {
    if id in sessions then sessions[id].createdAt else 0
  }

  lemma NewerOrders(sessions: map<int, Session>)
    ensures Orders((a: int, b: int) => Newer(sessions, a, b))
  {
  }

  /** The ids of the sessions, newest first. */
  function NewestFirst(sessions: map<int, Session>): (ids: seq<int>)
    ensures forall id :: id in ids <==> id in sessions
    ensures forall i, j | 0 <= i < j < |ids| :: Newer(sessions, ids[i], ids[j])
    ensures |ids| == |sessions|
  {
    NewerOrders(sessions);
    InOrder(sessions.Keys, (a: int, b: int) => Newer(sessions, a, b))
  }

  function Devices(sessions: map<int, Session>): seq<Device> {
    var ids := NewestFirst(sessions);
    seq(|ids|, i requires 0 <= i < |ids| => Device(ids[i], sessions[ids[i]].createdAt, sessions[ids[i]].revoked))
  }

  // ---- What each request does ------------------------------------------------------------------------------------

  /** The id a post inserts under: the one the body names, or the database's when it names none. */
  function InsertedId(dto: NoteDto, rowId: int): int {
    if dto.id != 0 then dto.id else rowId
  }

  /** The caller's own notes in id order, and nobody else's. */
  function QueriedNotes(s: Store, session: int): Response {
    var user := Caller(s, session);
    if user.None? then Answer(Unauthorized) else Response(Ok, Dtos(Rows(s.notes, user.value)), [])
  }

  /** The checks in order, each with its status, and past all of them a new row under the caller's account. */
  function PostedNote(s: Store, session: int, body: Option<NoteDto>, now: nat, rowId: int): (Store, Response) {
    var user := Caller(s, session);
    if user.None? then (s, Answer(Unauthorized))
    else if body.None? || !TextOk(body.value.text) then (s, Answer(BadRequest))
    else if |Rows(s.notes, user.value)| >= NOTES_PER_USER then (s, Answer(Unprocessable))
    else
      var id := InsertedId(body.value, rowId);
      if id in s.notes then (s, Answer(InternalError))
      else
        var note := Note(id, user.value, now, body.value.text);
        (s.(notes := s.notes[id := note]), Response(Created, [DtoOf(note)], []))
  }

  /** Deletes one of the caller's notes; another's is not found, the same as one that is not there. */
  function DeletedNote(s: Store, session: int, target: Option<int>): (Store, Response) {
    var user := Caller(s, session);
    if user.None? then (s, Answer(Unauthorized))
    else if !IdOk(target) then (s, Answer(BadRequest))
    else if target.value !in s.notes then (s, Answer(NotFound))
    else if s.notes[target.value].owner != user.value then (s, Answer(NotFound))
    else (s.(notes := s.notes - {target.value}), Answer(NoContent))
  }

  /** The caller's own sessions, newest first. */
  function ListedSessions(s: Store, session: int): Response {
    var user := Caller(s, session);
    if user.None? then Answer(Unauthorized) else Response(Ok, [], Devices(OwnSessions(s.sessions, user.value)))
  }

  /** Revokes one of the caller's sessions; another's is not found. */
  function DeletedSession(s: Store, session: int, target: Option<int>): (Store, Response) {
    var user := Caller(s, session);
    if user.None? then (s, Answer(Unauthorized))
    else if !IdOk(target) then (s, Answer(BadRequest))
    else if target.value !in OwnSessions(s.sessions, user.value) then (s, Answer(NotFound))
    else (s.(sessions := s.sessions[target.value := s.sessions[target.value].(revoked := true)]), Answer(NoContent))
  }

  lemma DeletedIfOwn(s: Store, session: int, target: Option<int>)
    requires Caller(s, session).Some? && IdOk(target)
    ensures var user, id := Caller(s, session).value, target.value;
      DeletedSession(s, session, target) ==
        if id in s.sessions && s.sessions[id].user == user
        then (s.(sessions := s.sessions[id := s.sessions[id].(revoked := true)]), Answer(NoContent))
        else (s, Answer(NotFound))
  {
  }

  function Served(s: Store, r: Request): (Store, Response) {
    match r
    case Login(user, now, rowId) => (s.(sessions := s.sessions[rowId := Session(user, false, now)]), Answer(Ok))
    case QueryNotes(session) => (s, QueriedNotes(s, session))
    case PostNote(session, body, now, rowId) => PostedNote(s, session, body, now, rowId)
    case DeleteNote(session, target) => DeletedNote(s, session, target)
    case ListSessions(session) => (s, ListedSessions(s, session))
    case DeleteSession(session, target) => DeletedSession(s, session, target)
  }

  function After(s: Store, r: Request): Store {
    Served(s, r).0
  }

  function Reply(s: Store, r: Request): Response {
    Served(s, r).1
  }

  // ---- Accounts are independent --------------------------------------------------------------------------------

  /** The account a request is made for, if any. */
  function Acting(s: Store, r: Request): Option<Account> {
    if r.Login? then Some(r.user) else AccountOf(s, r.session)
  }

  /** What belongs to one account. */
  function Own(s: Store, user: Account): Store {
    Store(OwnNotes(s.notes, user), OwnSessions(s.sessions, user))
  }

  /** Ids the database assigns are not in use. */
  predicate Fresh(s: Store, r: Request) {
    match r
    case Login(_, _, rowId) => rowId !in s.sessions
    case PostNote(_, _, _, rowId) => rowId !in s.notes
    case _ => true
  }

  /** A post by the account that would be stored but for its naming the id of a note another account holds. */
  predicate Collides(s: Store, r: Request, user: Account) {
    && r.PostNote? && Caller(s, r.session) == Some(user)
    && r.body.Some? && TextOk(r.body.value.text) && |Rows(s.notes, user)| < NOTES_PER_USER
    && r.body.value.id != 0 && r.body.value.id in s.notes && s.notes[r.body.value.id].owner != user
  }

  lemma OwnAfterInsert(notes: map<int, Note>, id: int, note: Note, user: Account)
    requires id !in notes
    ensures OwnNotes(notes[id := note], user)
         == if note.owner == user then OwnNotes(notes, user)[id := note] else OwnNotes(notes, user)
  {
  }

  lemma OwnAfterDelete(notes: map<int, Note>, id: int, user: Account)
    requires id in notes
    ensures OwnNotes(notes - {id}, user)
         == if notes[id].owner == user then OwnNotes(notes, user) - {id} else OwnNotes(notes, user)
  {
  }

  lemma OwnAfterSession(sessions: map<int, Session>, id: int, session: Session, user: Account)
    requires id in sessions ==> sessions[id].user == session.user
    ensures OwnSessions(sessions[id := session], user)
         == if session.user == user then OwnSessions(sessions, user)[id := session] else OwnSessions(sessions, user)
  {
  }

  lemma OwnOfOwn(s: Store, user: Account)
    ensures OwnNotes(Own(s, user).notes, user) == OwnNotes(s.notes, user)
    ensures OwnSessions(Own(s, user).sessions, user) == OwnSessions(s.sessions, user)
    ensures Rows(Own(s, user).notes, user) == Rows(s.notes, user)
  {
    assert OwnNotes(OwnNotes(s.notes, user), user) == OwnNotes(s.notes, user);
  }

  /** One account's request leaves everything of every other account as it was. */
  lemma OthersUntouched(s: Store, r: Request, user: Account)
    requires Fresh(s, r) && Acting(s, r) != Some(user)
    ensures Own(After(s, r), user) == Own(s, user)
  {
    match r
    case Login(who, now, rowId) => OwnAfterSession(s.sessions, rowId, Session(who, false, now), user);
    case QueryNotes(_) =>
    case ListSessions(_) =>
    case PostNote(session, body, now, rowId) =>
      if Reply(s, r).status == Created {
        var id, owner := InsertedId(body.value, rowId), Caller(s, session).value;
        OwnAfterInsert(s.notes, id, Note(id, owner, now, body.value.text), user);
      }
    case DeleteNote(_, target) =>
      if Reply(s, r).status == NoContent {
        OwnAfterDelete(s.notes, target.value, user);
      }
    case DeleteSession(session, target) =>
      if Reply(s, r).status == NoContent {
        OwnAfterSession(s.sessions, target.value, s.sessions[target.value].(revoked := true), user);
      }
  }

  lemma SameCaller(s: Store, session: int, user: Account)
    requires AccountOf(s, session) == Some(user)
    ensures Caller(Own(s, user), session) == Caller(s, session)
  {
  }

  lemma PostDecided(s: Store, r: Request, user: Account)
    requires r.PostNote? && Fresh(s, r) && Acting(s, r) == Some(user)
    ensures if Collides(s, r, user)
      then Reply(s, r).status == InternalError && Reply(Own(s, user), r).status == Created
      else Reply(Own(s, user), r) == Reply(s, r) && After(Own(s, user), r) == Own(After(s, r), user)
  {
    OwnOfOwn(s, user);
    SameCaller(s, r.session, user);
    assert Caller(s, r.session).Some? ==> Caller(s, r.session).value == user;
    hide Caller, OwnSessions, Rows;
    if Reply(s, r).status == Created {
      var id := InsertedId(r.body.value, r.rowId);
      OwnAfterInsert(s.notes, id, Note(id, user, r.now, r.body.value.text), user);
    }
  }

  lemma DeleteNoteDecided(s: Store, session: int, target: Option<int>, user: Account)
    requires AccountOf(s, session) == Some(user)
    ensures var alone, among := DeletedNote(Own(s, user), session, target), DeletedNote(s, session, target);
      alone.1 == among.1 && alone.0 == Own(among.0, user)
  {
    SameCaller(s, session, user);
    OwnOfOwn(s, user);
    assert Caller(s, session).Some? ==> Caller(s, session).value == user;
    hide Caller, OwnSessions, Rows;
    if DeletedNote(s, session, target).1.status == NoContent {
      OwnAfterDelete(s.notes, target.value, user);
    }
  }

  lemma DeleteSessionDecided(s: Store, session: int, target: Option<int>, user: Account)
    requires AccountOf(s, session) == Some(user)
    ensures var alone, among := DeletedSession(Own(s, user), session, target), DeletedSession(s, session, target);
      alone.1 == among.1 && alone.0 == Own(among.0, user)
  {
    SameCaller(s, session, user);
    OwnOfOwn(s, user);
    assert Caller(s, session).Some? ==> Caller(s, session).value == user;
    hide Caller, OwnNotes, Rows;
    if DeletedSession(s, session, target).1.status == NoContent {
      OwnAfterSession(s.sessions, target.value, s.sessions[target.value].(revoked := true), user);
    }
  }

  /** A request is answered and changes its account's rows as if no other had any, exactly unless it collides. */
  lemma OwnRowsDecide(s: Store, r: Request, user: Account)
    requires Fresh(s, r) && Acting(s, r) == Some(user)
    ensures if Collides(s, r, user)
      then Reply(s, r).status == InternalError && Reply(Own(s, user), r).status == Created
      else Reply(Own(s, user), r) == Reply(s, r) && After(Own(s, user), r) == Own(After(s, r), user)
  {
    match r
    case Login(who, now, rowId) => OwnAfterSession(s.sessions, rowId, Session(who, false, now), user);
    case QueryNotes(session) =>
      OwnOfOwn(s, user);
      SameCaller(s, session, user);
    case PostNote(_, _, _, _) => PostDecided(s, r, user);
    case DeleteNote(session, target) => DeleteNoteDecided(s, session, target, user);
    case ListSessions(session) =>
      OwnOfOwn(s, user);
      SameCaller(s, session, user);
    case DeleteSession(session, target) => DeleteSessionDecided(s, session, target, user);
  }

  // ---- Whole runs ----------------------------------------------------------------------------------------------

  function RunFrom(s: Store, requests: seq<Request>): Store
    decreases |requests|
  {
    if requests == [] then s else RunFrom(After(s, requests[0]), requests[1..])
  }

  /** Every id the database assigns along the run is one that is not in use. */
  predicate AllFresh(s: Store, requests: seq<Request>)
    decreases |requests|
  {
    requests != [] ==> Fresh(s, requests[0]) && AllFresh(After(s, requests[0]), requests[1..])
  }

  /** What one account is answered along a run. */
  function Seen(s: Store, requests: seq<Request>, user: Account): seq<Response>
    decreases |requests|
  {
    if requests == [] then []
    else
      (if Acting(s, requests[0]) == Some(user) then [Reply(s, requests[0])] else [])
      + Seen(After(s, requests[0]), requests[1..], user)
  }

  /** The run with everybody else's requests taken out. */
  function Purged(s: Store, requests: seq<Request>, user: Account): seq<Request>
    decreases |requests|
  {
    if requests == [] then []
    else
      (if Acting(s, requests[0]) == Some(user) then [requests[0]] else [])
      + Purged(After(s, requests[0]), requests[1..], user)
  }

  predicate NeverCollides(s: Store, requests: seq<Request>, user: Account)
    decreases |requests|
  {
    requests != [] ==> !Collides(s, requests[0], user) && NeverCollides(After(s, requests[0]), requests[1..], user)
  }

  lemma {:induction false} PurgedRun(s: Store, requests: seq<Request>, user: Account)
    requires AllFresh(s, requests)
    ensures Seen(s, requests, user) == Seen(Own(s, user), Purged(s, requests, user), user)
      <==> NeverCollides(s, requests, user)
    decreases |requests|
  {
    if requests != [] {
      var r, s' := requests[0], After(s, requests[0]);
      var rest, own := Purged(s', requests[1..], user), Own(s, user);
      PurgedRun(s', requests[1..], user);
      if Acting(s, r) == Some(user) {
        OwnRowsDecide(s, r, user);
        assert Acting(own, r) == Some(user);
        assert Purged(s, requests, user)[0] == r && Purged(s, requests, user)[1..] == rest;
        var seen, alone := Seen(s, requests, user), Seen(own, Purged(s, requests, user), user);
        assert seen[0] == Reply(s, r) && seen[1..] == Seen(s', requests[1..], user);
        assert alone[0] == Reply(own, r) && alone[1..] == Seen(After(own, r), rest, user);
        assert seen == alone <==> seen[0] == alone[0] && seen[1..] == alone[1..] by {
          assert seen == [seen[0]] + seen[1..] && alone == [alone[0]] + alone[1..];
        }
      } else {
        OthersUntouched(s, r, user);
        assert Purged(s, requests, user) == rest && Seen(s, requests, user) == Seen(s', requests[1..], user);
      }
    }
  }

  /**
   * What an account is answered in any run of the service equals what it is answered with every other account's
   * requests taken out, exactly when no post of its own names the id of a note that is another's at the time.
   */
  lemma AccountsAreIndependent(requests: seq<Request>, user: Account)
    requires AllFresh(EMPTY, requests)
    ensures Seen(EMPTY, requests, user) == Seen(EMPTY, Purged(EMPTY, requests, user), user)
      <==> NeverCollides(EMPTY, requests, user)
  {
    assert Own(EMPTY, user) == EMPTY;
    PurgedRun(EMPTY, requests, user);
  }

  /** Posts that leave the id to the database, as the interface intends, never collide. */
  lemma UnnamedPostsNeverCollide(s: Store, requests: seq<Request>, user: Account)
    requires forall r | r in requests && r.PostNote? && r.body.Some? :: r.body.value.id == 0
    ensures NeverCollides(s, requests, user)
    decreases |requests|
  {
    if requests != [] {
      assert requests[0] in requests;
      UnnamedPostsNeverCollide(After(s, requests[0]), requests[1..], user);
    }
  }

  lemma RunsOn(s: Store, r: Request, rest: seq<Request>, user: Account)
    ensures AllFresh(s, [r] + rest) <==> Fresh(s, r) && AllFresh(After(s, r), rest)
    ensures NeverCollides(s, [r] + rest, user) <==> !Collides(s, r, user) && NeverCollides(After(s, r), rest, user)
  {
    assert ([r] + rest)[1..] == rest;
  }

  const FIRST: Request := Login(1, 0, 10)
  const SECOND: Request := Login(2, 0, 20)
  const KEPT: Request := PostNote(10, Some(NoteDto(0, 0, "a")), 0, 5)
  const NAMED: Request := PostNote(20, Some(NoteDto(5, 0, "b")), 0, 6)

  lemma SecondAccountCollides(s: Store)
    requires s == Store(map[], map[10 := Session(1, false, 0), 20 := Session(2, false, 0)])
    ensures Fresh(s, KEPT) && Fresh(After(s, KEPT), NAMED) && Collides(After(s, KEPT), NAMED, 2)
  {
    assert OwnNotes(s.notes, 1) == map[] && OwnNotes(map[5 := Note(5, 1, 0, "a")], 2) == map[];
  }

  /** Two accounts: the second posts under the id of the first one's note and is answered differently than alone. */
  lemma NamedIdsInterfere() returns (requests: seq<Request>)
    ensures AllFresh(EMPTY, requests)
    ensures Seen(EMPTY, requests, 2) != Seen(EMPTY, Purged(EMPTY, requests, 2), 2)
  {
    requests := [FIRST] + ([SECOND] + ([KEPT] + ([NAMED] + [])));
    var s1 := After(EMPTY, FIRST);
    var s2 := After(s1, SECOND);
    SecondAccountCollides(s2);
    hide After, Fresh, Collides;
    RunsOn(After(s2, KEPT), NAMED, [], 2);
    RunsOn(s2, KEPT, [NAMED] + [], 2);
    RunsOn(s1, SECOND, [KEPT] + ([NAMED] + []), 2);
    RunsOn(EMPTY, FIRST, [SECOND] + ([KEPT] + ([NAMED] + [])), 2);
    AccountsAreIndependent(requests, 2);
  }

  // ---- The quota and what a query shows -------------------------------------------------------------------------

  /** The row is stored under its own id, and its text is not empty and fits the 280-byte column with its terminator. */
  predicate RowOk(notes: map<int, Note>, id: int)
    requires id in notes
  {
    notes[id].id == id && 1 <= |notes[id].text| <= 279
  }

  /** No account holds more than a thousand notes, and every row is in order. */
  ghost predicate Kept(s: Store) {
    && (forall user :: |OwnNotes(s.notes, user)| <= 1000)
    && (forall id | id in s.notes :: RowOk(s.notes, id))
  }

  lemma OneRowMore(notes: map<int, Note>, id: int, note: Note)
    ensures |notes[id := note]| <= |notes| + 1
  {
    assert notes[id := note].Keys == notes.Keys + {id};
  }

  lemma OneRowLess(notes: map<int, Note>, id: int)
    ensures |notes - {id}| <= |notes|
  {
    assert notes.Keys == (notes - {id}).Keys + (notes.Keys * {id});
  }

  lemma QuotaOfOneKept(s: Store, r: Request, user: Account)
    requires Kept(s)
    ensures |OwnNotes(After(s, r).notes, user)| <= 1000
  {
    hide OwnNotes, OwnSessions;
    match r
    case PostNote(session, body, now, rowId) =>
      if Reply(s, r).status == Created {
        var id, owner := InsertedId(body.value, rowId), Caller(s, session).value;
        var note := Note(id, owner, now, body.value.text);
        OwnAfterInsert(s.notes, id, note, user);
        OneRowMore(OwnNotes(s.notes, user), id, note);
      }
    case DeleteNote(_, target) =>
      if Reply(s, r).status == NoContent {
        OwnAfterDelete(s.notes, target.value, user);
        OneRowLess(OwnNotes(s.notes, user), target.value);
      }
    case _ =>
  }

  lemma RowsKept(s: Store, r: Request)
    requires forall id | id in s.notes :: RowOk(s.notes, id)
    ensures forall id | id in After(s, r).notes :: RowOk(After(s, r).notes, id)
  {
    hide Rows, OwnSessions;
  }

  lemma QuotaKept(s: Store, r: Request)
    requires Kept(s)
    ensures Kept(After(s, r))
  {
    hide After, OwnNotes;
    RowsKept(s, r);
    forall user ensures |OwnNotes(After(s, r).notes, user)| <= 1000 {
      QuotaOfOneKept(s, r, user);
    }
  }

  lemma {:induction false} RunsKeepQuota(s: Store, requests: seq<Request>)
    requires Kept(s)
    ensures Kept(RunFrom(s, requests))
    decreases |requests|
  {
    if requests != [] {
      QuotaKept(s, requests[0]);
      RunsKeepQuota(After(s, requests[0]), requests[1..]);
    }
  }

  /** The rows selected are exactly the owner's, each once, in ascending id order. */
  lemma RowsAreOwn(notes: map<int, Note>, user: Account)
    requires forall id | id in notes :: RowOk(notes, id)
    ensures var rows := Rows(notes, user);
      && (forall i | 0 <= i < |rows| :: rows[i].id in notes && notes[rows[i].id] == rows[i] && rows[i].owner == user)
      && (forall id | id in notes && notes[id].owner == user :: notes[id] in rows)
      && (forall i, j | 0 <= i < j < |rows| :: rows[i].id < rows[j].id)
  {
    var rows, own := Rows(notes, user), OwnNotes(notes, user);
    var ids := Ascending(own.Keys);
    forall i | 0 <= i < |rows|
      ensures ids[i] in own && rows[i] == notes[ids[i]] && rows[i].id == ids[i] && rows[i].owner == user
    {
      assert ids[i] in ids;
    }
    forall id | id in notes && notes[id].owner == user ensures notes[id] in rows {
      assert id in own && id in ids;
      var i :| 0 <= i < |ids| && ids[i] == id;
      assert rows[i] == notes[id];
    }
  }

  lemma DtoIsListed(notes: map<int, Note>, user: Account, dto: NoteDto)
    requires forall id | id in notes :: RowOk(notes, id)
    ensures dto in Dtos(Rows(notes, user)) <==>
      dto.id in notes && notes[dto.id].owner == user && dto == DtoOf(notes[dto.id])
  {
    RowsAreOwn(notes, user);
    hide Rows;
    var rows := Rows(notes, user);
    if dto.id in notes && notes[dto.id].owner == user && dto == DtoOf(notes[dto.id]) {
      var i :| 0 <= i < |rows| && rows[i] == notes[dto.id];
      assert Dtos(rows)[i] == dto;
    }
  }

  lemma DtosAscend(notes: map<int, Note>, user: Account)
    requires forall id | id in notes :: RowOk(notes, id)
    ensures var dtos := Dtos(Rows(notes, user)); forall i, j | 0 <= i < j < |dtos| :: dtos[i].id < dtos[j].id
  {
    RowsAreOwn(notes, user);
    hide Rows;
  }

  /** A query lists exactly the caller's notes, each as it is stored, in ascending id order. */
  lemma QueryListsOwn(s: Store, session: int)
    requires Kept(s) && Caller(s, session).Some?
    ensures var user, listed := Caller(s, session).value, Reply(s, QueryNotes(session)).notes;
      && (forall dto: NoteDto :: dto in listed <==>
            dto.id in s.notes && s.notes[dto.id].owner == user && dto == DtoOf(s.notes[dto.id]))
      && (forall i, j | 0 <= i < j < |listed| :: listed[i].id < listed[j].id)
      && |listed| <= 1000
  {
    var user, listed := Caller(s, session).value, Reply(s, QueryNotes(session)).notes;
    assert listed == Dtos(Rows(s.notes, user)) && |listed| <= 1000;
    hide Reply, Served, Caller, Rows, OwnNotes, Dtos;
    DtosAscend(s.notes, user);
    forall dto: NoteDto
      ensures dto in listed <==> dto.id in s.notes && s.notes[dto.id].owner == user && dto == DtoOf(s.notes[dto.id])
    {
      DtoIsListed(s.notes, user, dto);
    }
  }

  /** The device list is exactly the caller's sessions, each once with its row's fields, newest first. */
  lemma SessionsListOwn(s: Store, session: int)
    requires Caller(s, session).Some?
    ensures var user, devices := Caller(s, session).value, Reply(s, ListSessions(session)).devices;
      && (forall d: Device :: d in devices <==>
            && d.id in s.sessions && s.sessions[d.id].user == user
            && d.createdAt == s.sessions[d.id].createdAt && d.revoked == s.sessions[d.id].revoked)
      && (forall i, j | 0 <= i < j < |devices| ::
            devices[i].createdAt > devices[j].createdAt
            || (devices[i].createdAt == devices[j].createdAt && devices[i].id > devices[j].id))
  {
    var user, devices := Caller(s, session).value, Reply(s, ListSessions(session)).devices;
    var own := OwnSessions(s.sessions, user);
    assert devices == Devices(own);
    hide Reply, Served, Caller;
    DevicesAreOwn(own);
  }

  lemma DevicesAreOwn(own: map<int, Session>)
    ensures forall d: Device :: d in Devices(own) <==>
      d.id in own && d.createdAt == own[d.id].createdAt && d.revoked == own[d.id].revoked
    ensures var devices := Devices(own);
      forall i, j | 0 <= i < j < |devices| ::
        devices[i].createdAt > devices[j].createdAt
        || (devices[i].createdAt == devices[j].createdAt && devices[i].id > devices[j].id)
  {
    var ids, devices := NewestFirst(own), Devices(own);
    hide NewestFirst;
    forall i | 0 <= i < |devices| ensures devices[i].id == ids[i] && ids[i] in own {
      assert ids[i] in ids;
    }
    forall d: Device | d.id in own && d == Device(d.id, own[d.id].createdAt, own[d.id].revoked) ensures d in devices {
      var i :| 0 <= i < |ids| && ids[i] == d.id;
      assert devices[i] == d;
    }
  }

  /** Along the run the account makes no request to delete the note. */
  predicate Spares(s: Store, requests: seq<Request>, user: Account, id: int)
    decreases |requests|
  {
    requests != [] ==>
      var r := requests[0];
      && !(r.DeleteNote? && r.target == Some(id) && Acting(s, r) == Some(user))
      && Spares(After(s, r), requests[1..], user, id)
  }

  lemma NoteSpared(s: Store, r: Request, id: int)
    requires id in s.notes
    requires !(r.DeleteNote? && r.target == Some(id) && Acting(s, r) == Some(s.notes[id].owner))
    ensures id in After(s, r).notes && After(s, r).notes[id] == s.notes[id]
  {
    hide Rows, OwnSessions;
    match r
    case DeleteNote(session, target) =>
      if Reply(s, r).status == NoContent {
        assert target.value != id;
      }
    case _ =>
  }

  /** A stored note stays exactly as it is until its owner asks for it to be deleted, whatever anybody else asks for. */
  lemma {:induction false} NoteStaysUntilOwnerDeletes(s: Store, requests: seq<Request>, id: int)
    requires id in s.notes && Spares(s, requests, s.notes[id].owner, id)
    ensures id in RunFrom(s, requests).notes && RunFrom(s, requests).notes[id] == s.notes[id]
    decreases |requests|
  {
    if requests != [] {
      NoteSpared(s, requests[0], id);
      NoteStaysUntilOwnerDeletes(After(s, requests[0]), requests[1..], id);
    }
  }
}
