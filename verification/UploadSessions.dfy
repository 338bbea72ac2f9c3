/** Resumable uploads (app/ai-service/services/upload_sessions.py): sessions, their chunk files and
    the finished artifacts. The functions say what each call does to a value of the whole store;
    `UploadSessionService` keeps session objects and is proved against them.

    Identifiers and the time are parameters. A directory is the map of its chunk files. */
module UploadSessions {
  import opened Basics

  type Byte = b: int | 0 <= b < 256
  type Bytes = seq<Byte>
  type Directory = map<nat, Bytes>

  datatype Error =
    | MissingOwner | InvalidContentType | InvalidRequest | FileTooLarge
    | SessionNotFound | SessionExpired | ForbiddenOwner
    | SessionAlreadyFinalized | InvalidChunkIndex | EmptyChunk
    | IncompleteUpload | SizeMismatch

  datatype Limits = Limits(allowedContentTypes: set<string>, maxUploadBytes: int, ttl: real)

  datatype Session = Session(
    ownerId: string, totalSize: int, totalChunks: int, expiresAt: real,
    receivedChunks: set<nat>, receivedBytes: int, completed: bool, artifactId: Option<string>)

  datatype Store = Store(
    sessions: map<string, Session>, directories: map<string, Directory>, artifacts: map<string, Bytes>)

  function DirectoryOf(directories: map<string, Directory>, id: string): Directory {
    if id in directories then directories[id] else map[]
  }

  function ChunkSize(d: Directory, index: int): nat {
    if index in d then |d[index]| else 0
  }

  /** The bytes stored for the chunks of `received` below `n`. */
  function StoredBytes(received: set<nat>, d: Directory, n: int): nat
    decreases if n < 0 then 0 else n
  {
    if n <= 0 then 0 else StoredBytes(received, d, n - 1) + (if n - 1 in received then ChunkSize(d, n - 1) else 0)
  }

  /** The chunks below `n` one after the other. */
  function Assembled(d: Directory, n: int): Bytes
    decreases if n < 0 then 0 else n
  {
    if n <= 0 then [] else Assembled(d, n - 1) + (if n - 1 in d then d[n - 1] else [])
  }

  // ----- The operations on values ---------------------------------------------------------

  function Purged(s: Store, id: string): Store {
    Store(s.sessions - {id}, s.directories - {id}, s.artifacts)
  }

  /** Looking an expired session up removes it. */
  function Required(s: Store, id: string, ownerId: string, now: real): (Store, Option<Error>) {
    if id !in s.sessions then (s, Some(SessionNotFound))
    else if now > s.sessions[id].expiresAt then (Purged(s, id), Some(SessionExpired))
    else if ownerId == "" || s.sessions[id].ownerId != ownerId then (s, Some(ForbiddenOwner))
    else (s, None)
  }

  function Created(s: Store, l: Limits, ownerId: string, contentType: string, totalSize: int, totalChunks: int,
                   id: string, now: real): (Store, Option<Error>) {
    if ownerId == "" then (s, Some(MissingOwner))
    else if contentType !in l.allowedContentTypes then (s, Some(InvalidContentType))
    else if totalSize <= 0 || totalChunks <= 0 then (s, Some(InvalidRequest))
    else if totalSize > l.maxUploadBytes then (s, Some(FileTooLarge))
    else
      var session := Session(ownerId, totalSize, totalChunks, now + l.ttl, {}, 0, false, None);
      (s.(sessions := s.sessions[id := session],
          directories := s.directories[id := DirectoryOf(s.directories, id)]), None)
  }

  /** A session together with its directory, after a chunk was stored, or stored and rolled back. */
  function Stored(x: Session, d: Directory, l: Limits, index: nat, data: Bytes): (Session, Directory, Option<Error>) {
    var d1, received1 := d[index := data], x.receivedChunks + {index};
    var bytes1 := StoredBytes(received1, d1, x.totalChunks);
    if bytes1 > l.maxUploadBytes then
      var d2, received2 := d1 - {index}, received1 - {index};
      (x.(receivedChunks := received2, receivedBytes := StoredBytes(received2, d2, x.totalChunks)), d2, Some(FileTooLarge))
    else
      (x.(receivedChunks := received1, receivedBytes := bytes1), d1, None)
  }

  function Saved(s: Store, l: Limits, id: string, ownerId: string, index: int, data: Bytes, now: real):
    (Store, Option<Error>)
  {
    var (s1, e) := Required(s, id, ownerId, now);
    if e.Some? then (s1, e)
    else
      var x := s1.sessions[id];
      if x.completed then (s1, Some(SessionAlreadyFinalized))
      else if index < 0 || index >= x.totalChunks then (s1, Some(InvalidChunkIndex))
      else if data == [] then (s1, Some(EmptyChunk))
      else
        var (x', d', e') := Stored(x, DirectoryOf(s1.directories, id), l, index, data);
        (s1.(sessions := s1.sessions[id := x'], directories := s1.directories[id := d']), e')
  }

  predicate HasAllChunks(x: Session) {
    forall i :: 0 <= i < x.totalChunks ==> i in x.receivedChunks
  }

  function Finalized(s: Store, id: string, ownerId: string, artifactId: string, now: real): (Store, Option<Error>) {
    var (s1, e) := Required(s, id, ownerId, now);
    if e.Some? then (s1, e)
    else
      var x := s1.sessions[id];
      if x.completed then (s1, None)
      else if !HasAllChunks(x) then (s1, Some(IncompleteUpload))
      else if x.receivedBytes != x.totalSize then (s1, Some(SizeMismatch))
      else
        var artifact := Assembled(DirectoryOf(s1.directories, id), x.totalChunks);
        (Store(s1.sessions[id := x.(completed := true, artifactId := Some(artifactId))],
               s1.directories - {id}, s1.artifacts[artifactId := artifact]), None)
  }

  /** First phase of the purge: sessions never finalized whose time is over. */
  function Abandoned(s: Store, now: real): set<string> {
    set id | id in s.sessions && !s.sessions[id].completed && s.sessions[id].expiresAt < now
  }

  // ----- The service ----------------------------------------------------------------------

  class UploadSession {
    const ownerId: string
    const totalSize: int
    const totalChunks: int
    const expiresAt: real
    var receivedChunks: set<nat>
    var receivedBytes: int
    var completed: bool
    var artifactId: Option<string>

    constructor (ownerId: string, totalSize: int, totalChunks: int, expiresAt: real)
      ensures View() == Session(ownerId, totalSize, totalChunks, expiresAt, {}, 0, false, None)
    {
      this.ownerId, this.totalSize, this.totalChunks, this.expiresAt := ownerId, totalSize, totalChunks, expiresAt;
      receivedChunks, receivedBytes, completed, artifactId := {}, 0, false, None;
    }

    ghost function View(): Session
      reads this
    {
      Session(ownerId, totalSize, totalChunks, expiresAt, receivedChunks, receivedBytes, completed, artifactId)
    }
  }

  class UploadSessionService {
    const limits: Limits
    var sessions: map<string, UploadSession>
    var directories: map<string, Directory>
    var artifacts: map<string, Bytes>

    /** Every session has its own object. */
    ghost predicate Valid()
      reads this
    {
      forall a, b :: a in sessions && b in sessions && sessions[a] == sessions[b] ==> a == b
    }

    ghost function Snapshot(): Store
      reads this, sessions.Values
    {
      Store(map id | id in sessions :: sessions[id].View(), directories, artifacts)
    }

    /** When one session is new or changed, so is one entry of the snapshot. */
    twostate lemma OneSession(id: string, new x: UploadSession)
      requires sessions == old(sessions)[id := x]
      requires forall k :: k in old(sessions) && k != id ==> sessions[k].View() == old(sessions[k].View())
      ensures Snapshot().sessions == old(Snapshot().sessions)[id := x.View()]
    {
    }

    constructor (limits: Limits)
      ensures this.limits == limits && Valid() && Snapshot() == Store(map[], map[], map[])
    {
      this.limits := limits;
      sessions, directories, artifacts := map[], map[], map[];
    }

    method Create(ownerId: string, contentType: string, totalSize: int, totalChunks: int, id: string, now: real)
      returns (error: Option<Error>)
      requires Valid()
      modifies this
      ensures Valid()
      ensures (Snapshot(), error) ==
              Created(old(Snapshot()), limits, ownerId, contentType, totalSize, totalChunks, id, now)
    {
      if ownerId == "" {
        return Some(MissingOwner);
      }
      if contentType !in limits.allowedContentTypes {
        return Some(InvalidContentType);
      }
      if totalSize <= 0 || totalChunks <= 0 {
        return Some(InvalidRequest);
      }
      if totalSize > limits.maxUploadBytes {
        return Some(FileTooLarge);
      }
      var session := new UploadSession(ownerId, totalSize, totalChunks, now + limits.ttl);
      sessions := sessions[id := session];
      directories := directories[id := DirectoryOf(directories, id)];
      OneSession(id, session);
      return None;
    }

    method Purge(id: string)
      requires Valid()
      modifies this
      ensures Valid() && Snapshot() == Purged(old(Snapshot()), id)
      ensures sessions == old(sessions) - {id}
    {
      sessions := sessions - {id};
      directories := directories - {id};
    }

    method RequireActive(id: string, ownerId: string, now: real) returns (error: Option<Error>)
      requires Valid()
      modifies this
      ensures Valid() && (Snapshot(), error) == Required(old(Snapshot()), id, ownerId, now)
      ensures sessions == old(sessions) || sessions == old(sessions) - {id}
      ensures error.None? ==> sessions == old(sessions) && id in sessions
    {
      if id !in sessions {
        return Some(SessionNotFound);
      }
      var session := sessions[id];
      if now > session.expiresAt {
        Purge(id);
        return Some(SessionExpired);
      }
      if ownerId == "" || session.ownerId != ownerId {
        return Some(ForbiddenOwner);
      }
      return None;
    }

    /** The received set is read in whatever order it yields its elements. */
    method RecalculateReceivedBytes(id: string, session: UploadSession) returns (total: nat)
      requires forall i :: i in session.receivedChunks ==> 0 <= i < session.totalChunks
      ensures total == StoredBytes(session.receivedChunks, DirectoryOf(directories, id), session.totalChunks)
    {
      total := 0;
      var d := DirectoryOf(directories, id);
      var todo := session.receivedChunks;
      while todo != {}
        invariant todo <= session.receivedChunks
        invariant total + StoredBytes(todo, d, session.totalChunks) == StoredBytes(session.receivedChunks, d, session.totalChunks)
        decreases |todo|
      {
        var index :| index in todo;
        WithoutOne(todo, d, session.totalChunks, index);
        if index in d {
          total := total + |d[index]|;
        }
        todo := todo - {index};
      }
      NothingStored(d, session.totalChunks);
    }

    method SaveChunk(id: string, ownerId: string, index: int, data: Bytes, now: real) returns (error: Option<Error>)
      requires Valid()
      requires forall k, i :: k in sessions && i in sessions[k].receivedChunks ==> 0 <= i < sessions[k].totalChunks
      modifies this, sessions.Values
      ensures Valid()
      ensures (Snapshot(), error) == Saved(old(Snapshot()), limits, id, ownerId, index, data, now)
    {
      var e := RequireActive(id, ownerId, now);
      if e.Some? {
        return e;
      }
      var session := sessions[id];
      if session.completed {
        return Some(SessionAlreadyFinalized);
      }
      if index < 0 || index >= session.totalChunks {
        return Some(InvalidChunkIndex);
      }
      if data == [] {
        return Some(EmptyChunk);
      }
      error := StoreChunk(id, session, index, data);
      OneSession(id, session);
    }

    method StoreChunk(id: string, session: UploadSession, index: nat, data: Bytes) returns (error: Option<Error>)
      requires Valid() && id in sessions && sessions[id] == session && 0 <= index < session.totalChunks
      requires forall i :: i in session.receivedChunks ==> 0 <= i < session.totalChunks
      modifies this`directories, session
      ensures Valid()
      ensures var (x, d, e) := Stored(old(session.View()), DirectoryOf(old(directories), id), limits, index, data);
              session.View() == x && directories == old(directories)[id := d] && error == e
    {
      directories := directories[id := DirectoryOf(directories, id)[index := data]];
      session.receivedChunks := session.receivedChunks + {index};
      session.receivedBytes := RecalculateReceivedBytes(id, session);
      if session.receivedBytes > limits.maxUploadBytes {
        RollBack(id, session, index);
        return Some(FileTooLarge);
      }
      return None;
    }

    /** The chunk goes, even where it replaced one that fitted. */
    method RollBack(id: string, session: UploadSession, index: nat)
      requires id in sessions && sessions[id] == session && id in directories
      requires forall i :: i in session.receivedChunks ==> 0 <= i < session.totalChunks
      modifies this`directories, session
      ensures directories == old(directories)[id := old(directories)[id] - {index}]
      ensures var received := old(session.receivedChunks) - {index};
              session.View() == old(session.View()).(receivedChunks := received,
                receivedBytes := StoredBytes(received, directories[id], session.totalChunks))
    {
      directories := directories[id := directories[id] - {index}];
      session.receivedChunks := session.receivedChunks - {index};
      session.receivedBytes := RecalculateReceivedBytes(id, session);
    }

    method Assemble(id: string, totalChunks: int) returns (output: Bytes)
      ensures output == Assembled(DirectoryOf(directories, id), totalChunks)
    {
      output := [];
      var d := DirectoryOf(directories, id);
      var i := 0;
      while i < totalChunks
        invariant 0 <= i && (i <= totalChunks || i == 0)
        invariant output == Assembled(d, i)
      {
        output := output + (if i in d then d[i] else []);
        i := i + 1;
      }
    }

    method Finalize(id: string, ownerId: string, artifactId: string, now: real) returns (error: Option<Error>)
      requires Valid()
      modifies this, sessions.Values
      ensures Valid()
      ensures (Snapshot(), error) == Finalized(old(Snapshot()), id, ownerId, artifactId, now)
    {
      var e := RequireActive(id, ownerId, now);
      if e.Some? {
        return e;
      }
      var session := sessions[id];
      if session.completed {
        return None;
      }
      var missing := exists i :: 0 <= i < session.totalChunks && i !in session.receivedChunks;
      if missing {
        return Some(IncompleteUpload);
      }
      if session.receivedBytes != session.totalSize {
        return Some(SizeMismatch);
      }
      var output := Assemble(id, session.totalChunks);
      Complete(id, session, artifactId, output);
      OneSession(id, session);
      return None;
    }

    method Complete(id: string, session: UploadSession, artifactId: string, output: Bytes)
      requires id in sessions && sessions[id] == session
      modifies this`artifacts, this`directories, session
      ensures session.View() == old(session.View()).(completed := true, artifactId := Some(artifactId))
      ensures artifacts == old(artifacts)[artifactId := output] && directories == old(directories) - {id}
    {
      artifacts := artifacts[artifactId := output];
      session.completed := true;
      session.artifactId := Some(artifactId);
      directories := directories - {id};
    }

    method SelectAbandoned(now: real) returns (ids: set<string>)
      requires Valid()
      ensures ids == Abandoned(Snapshot(), now)
    {
      ids := set id | id in sessions && !sessions[id].completed && sessions[id].expiresAt < now;
    }

    /** Second phase, under the lock: the session is forgotten. Its directory goes separately. */
    method PopAbandoned(id: string)
      requires Valid()
      modifies this`sessions
      ensures Valid() && Snapshot() == old(Snapshot()).(sessions := old(Snapshot()).sessions - {id})
    {
      sessions := sessions - {id};
    }

    method RemoveDirectory(id: string)
      modifies this`directories
      ensures directories == old(directories) - {id}
    {
      directories := directories - {id};
    }
  }

  lemma {:induction false} WithoutOne(received: set<nat>, d: Directory, n: int, index: nat)
    requires index in received
    ensures StoredBytes(received, d, n) ==
            StoredBytes(received - {index}, d, n) + if 0 <= index < n then ChunkSize(d, index) else 0
    decreases if n < 0 then 0 else n
  {
    if n > 0 {
      WithoutOne(received, d, n - 1, index);
    }
  }

  lemma {:induction false} NothingStored(d: Directory, n: int)
    ensures StoredBytes({}, d, n) == 0
    decreases if n < 0 then 0 else n
  {
    if n > 0 {
      NothingStored(d, n - 1);
    }
  }
}
