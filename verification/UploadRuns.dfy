/** Whole runs of the upload service: any calls of any callers, with the two phases of the purge
    taken apart and anything in between.

    Session ids are never reused, an artifact gets an id that no artifact has, and the clock does
    not go back. */
module UploadRuns {
  import opened Basics
  import opened UploadSessions

  datatype Op =
    | Create(ownerId: string, contentType: string, totalSize: int, totalChunks: int, id: string, now: real)
    | Get(id: string, ownerId: string, now: real)
    | Save(id: string, ownerId: string, index: int, data: Bytes, now: real)
    | Finalize(id: string, ownerId: string, artifactId: string, now: real)
    | Select(now: real)
    | Pop(id: string)
    | Remove(id: string)

  /** Beside the store: what purges in progress have selected, what they have forgotten already,
      and the session ids handed out so far. */
  datatype State = State(store: Store, selected: set<string>, popped: set<string>, issued: set<string>, time: real)

  function TimeOf(st: State, op: Op): real {
    if op.Pop? || op.Remove? then st.time else op.now
  }

  predicate Legal(st: State, op: Op) {
    && st.time <= TimeOf(st, op)
    && (op.Create? ==> op.id !in st.issued)
    && (op.Finalize? ==> op.artifactId !in st.store.artifacts)
    && (op.Pop? ==> op.id in st.selected)
    && (op.Remove? ==> op.id in st.popped)
  }

  function Called(l: Limits, s: Store, op: Op): (Store, Option<Error>) {
    match op
    case Create(o, c, size, chunks, id, now) => Created(s, l, o, c, size, chunks, id, now)
    case Get(id, o, now) => Required(s, id, o, now)
    case Save(id, o, index, data, now) => Saved(s, l, id, o, index, data, now)
    case Finalize(id, o, artifactId, now) => Finalized(s, id, o, artifactId, now)
    case Select(_) => (s, None)
    case Pop(id) => (s.(sessions := s.sessions - {id}), None)
    case Remove(id) => (s.(directories := s.directories - {id}), None)
  }

  function Step(l: Limits, st: State, op: Op): State {
    State(Called(l, st.store, op).0,
          if op.Select? then st.selected + Abandoned(st.store, op.now) else st.selected,
          if op.Pop? then st.popped + {op.id} else st.popped,
          if op.Create? then st.issued + {op.id} else st.issued,
          TimeOf(st, op))
  }

  function Run(l: Limits, start: real, ops: seq<Op>): State {
    if ops == [] then State(Store(map[], map[], map[]), {}, {}, {}, start)
    else Step(l, Run(l, start, ops[..|ops| - 1]), ops[|ops| - 1])
  }

  predicate IsRun(l: Limits, start: real, ops: seq<Op>) {
    ops == [] ||
    (IsRun(l, start, ops[..|ops| - 1]) && Legal(Run(l, start, ops[..|ops| - 1]), ops[|ops| - 1]))
  }

  // ----- The invariant --------------------------------------------------------------------

  /** `received_chunks` names exactly the chunks on disk, and `received_bytes` is their size. */
  ghost predicate Consistent(x: Session, d: Directory, maxBytes: int) {
    && x.receivedChunks == d.Keys
    && (forall i :: i in d ==> 0 <= i < x.totalChunks && d[i] != [])
    && x.receivedBytes == StoredBytes(d.Keys, d, x.totalChunks)
    && x.receivedBytes <= maxBytes
  }

  ghost predicate Sound(x: Session, id: string, s: Store, maxBytes: int) {
    && x.totalChunks > 0 && 0 < x.totalSize <= maxBytes
    && (!x.completed ==> id in s.directories && Consistent(x, s.directories[id], maxBytes))
    && (x.completed ==>
          && x.artifactId.Some? && x.artifactId.value in s.artifacts
          && |s.artifacts[x.artifactId.value]| == x.totalSize)
  }

  ghost predicate AllSound(l: Limits, s: Store) {
    forall id :: id in s.sessions ==> Sound(s.sessions[id], id, s, l.maxUploadBytes)
  }

  /** What a purge has selected can never be used again. */
  ghost predicate Dead(st: State) {
    && (forall id :: id in st.selected && id in st.store.sessions ==>
          !st.store.sessions[id].completed && st.store.sessions[id].expiresAt < st.time)
    && (forall id :: id in st.popped ==> id !in st.store.sessions)
  }

  ghost predicate Known(st: State) {
    && st.store.sessions.Keys <= st.issued && st.store.directories.Keys <= st.issued
    && st.selected <= st.issued && st.popped <= st.issued
  }

  lemma {:induction false} StoredFrame(received: set<nat>, d: Directory, d': Directory, n: int)
    requires forall i :: i in received ==> ChunkSize(d, i) == ChunkSize(d', i)
    ensures StoredBytes(received, d, n) == StoredBytes(received, d', n)
    decreases if n < 0 then 0 else n
  {
    if n > 0 {
      StoredFrame(received, d, d', n - 1);
    }
  }

  /** Storing a chunk replaces the size it had, if any, by its new one. */
  lemma StoredWithChunk(x: Session, d: Directory, maxBytes: int, index: nat, data: Bytes)
    requires Consistent(x, d, maxBytes) && 0 <= index < x.totalChunks
    ensures StoredBytes(x.receivedChunks + {index}, d[index := data], x.totalChunks) ==
            x.receivedBytes - ChunkSize(d, index) + |data|
    ensures StoredBytes(d.Keys - {index}, d - {index}, x.totalChunks) == x.receivedBytes - ChunkSize(d, index)
  {
    var n, rest := x.totalChunks, d.Keys - {index};
    WithoutOne(x.receivedChunks + {index}, d[index := data], n, index);
    assert x.receivedChunks + {index} - {index} == rest;
    StoredFrame(rest, d[index := data], d, n);
    StoredFrame(rest, d - {index}, d, n);
    if index in d {
      WithoutOne(d.Keys, d, n, index);
    } else {
      assert rest == d.Keys;
    }
  }

  lemma StoredConsistent(x: Session, d: Directory, l: Limits, index: nat, data: Bytes)
    requires Consistent(x, d, l.maxUploadBytes) && 0 <= index < x.totalChunks && data != []
    ensures var (x', d', e) := Stored(x, d, l, index, data);
            && Consistent(x', d', l.maxUploadBytes)
            && x' == x.(receivedChunks := x'.receivedChunks, receivedBytes := x'.receivedBytes)
            && (e == None <==> x.receivedBytes - ChunkSize(d, index) + |data| <= l.maxUploadBytes)
            && d' == (if e == None then d[index := data] else d - {index})
  {
    StoredWithChunk(x, d, l.maxUploadBytes, index, data);
    assert d[index := data].Keys == x.receivedChunks + {index};
    assert d[index := data] - {index} == d - {index};
    assert (d - {index}).Keys == x.receivedChunks + {index} - {index};
  }

  lemma {:induction false} AssembledLength(d: Directory, n: int)
    ensures |Assembled(d, n)| == StoredBytes(d.Keys, d, n)
    decreases if n < 0 then 0 else n
  {
    if n > 0 {
      AssembledLength(d, n - 1);
    }
  }

  /** A session that keeps its directory and its artifact stays sound. */
  lemma SoundKept(x: Session, id: string, s: Store, s': Store, maxBytes: int)
    requires Sound(x, id, s, maxBytes)
    requires !x.completed ==> id in s'.directories && DirectoryOf(s'.directories, id) == DirectoryOf(s.directories, id)
    requires forall a :: a in s.artifacts ==> a in s'.artifacts && s'.artifacts[a] == s.artifacts[a]
    ensures Sound(x, id, s', maxBytes)
  {
  }

  lemma CallKeepsSound(l: Limits, st: State, op: Op)
    requires AllSound(l, st.store) && Legal(st, op) && Known(st) && Dead(st)
    ensures AllSound(l, Called(l, st.store, op).0)
  {
    var s, s' := st.store, Called(l, st.store, op).0;
    forall k | k in s'.sessions ensures Sound(s'.sessions[k], k, s', l.maxUploadBytes) {
      SessionStaysSound(l, st, op, k);
    }
  }

  lemma SessionStaysSound(l: Limits, st: State, op: Op, k: string)
    requires AllSound(l, st.store) && Legal(st, op) && Known(st) && Dead(st)
    requires k in Called(l, st.store, op).0.sessions
    ensures Sound(Called(l, st.store, op).0.sessions[k], k, Called(l, st.store, op).0, l.maxUploadBytes)
  {
    var s, s' := st.store, Called(l, st.store, op).0;
    if op.Save? && k == op.id {
      SavedSound(l, s, op);
    } else if op.Finalize? && k == op.id {
      FinalizedSound(l, s, op);
    } else if op.Create? && k == op.id {
      CreatedSound(l, s, op);
    } else {
      OtherKept(l, st, op, k);
      SoundKept(s.sessions[k], k, s, s', l.maxUploadBytes);
    }
  }

  lemma OtherKept(l: Limits, st: State, op: Op, k: string)
    requires Legal(st, op) && k in Called(l, st.store, op).0.sessions
    requires (op.Save? || op.Finalize? || op.Create? || op.Remove?) ==> k != op.id
    ensures Untouched(st.store, Called(l, st.store, op).0, k)
  {
    match op
    case Save(id, ownerId, _, _, now) => RequiredUntouched(st.store, id, ownerId, now, k);
    case Finalize(id, ownerId, _, now) => RequiredUntouched(st.store, id, ownerId, now, k);
    case _ =>
  }

  ghost predicate Untouched(s: Store, s': Store, k: string) {
    && k in s.sessions && k in s'.sessions && s'.sessions[k] == s.sessions[k]
    && (k in s.directories ==> k in s'.directories && s'.directories[k] == s.directories[k])
    && (forall a :: a in s.artifacts ==> a in s'.artifacts && s'.artifacts[a] == s.artifacts[a])
  }

  lemma RequiredUntouched(s: Store, id: string, ownerId: string, now: real, k: string)
    requires k in Required(s, id, ownerId, now).0.sessions
    ensures Untouched(s, Required(s, id, ownerId, now).0, k)
  {
  }

  lemma SavedSound(l: Limits, s: Store, op: Op)
    requires op.Save? && AllSound(l, s) && op.id in Called(l, s, op).0.sessions
    ensures var s' := Called(l, s, op).0; Sound(s'.sessions[op.id], op.id, s', l.maxUploadBytes)
  {
    var x := s.sessions[op.id];
    assert Sound(x, op.id, s, l.maxUploadBytes);
    if !x.completed && 0 <= op.index < x.totalChunks && op.data != [] {
      StoredConsistent(x, s.directories[op.id], l, op.index, op.data);
    }
  }

  lemma FinalizedSound(l: Limits, s: Store, op: Op)
    requires op.Finalize? && AllSound(l, s) && op.id in Called(l, s, op).0.sessions
    ensures var s' := Called(l, s, op).0; Sound(s'.sessions[op.id], op.id, s', l.maxUploadBytes)
  {
    var x := s.sessions[op.id];
    assert Sound(x, op.id, s, l.maxUploadBytes);
    if !x.completed {
      AssembledLength(s.directories[op.id], x.totalChunks);
    }
  }

  lemma CreatedSound(l: Limits, s: Store, op: Op)
    requires op.Create? && op.id !in s.sessions && op.id !in s.directories && op.id in Called(l, s, op).0.sessions
    ensures var s' := Called(l, s, op).0; Sound(s'.sessions[op.id], op.id, s', l.maxUploadBytes)
  {
    NothingStored(map[], op.totalChunks);
    var none: Directory := map[];
    assert none.Keys == {};
  }

  lemma CallKeepsDead(l: Limits, st: State, op: Op)
    requires Legal(st, op) && Known(st) && Dead(st)
    ensures Dead(Step(l, st, op)) && Known(Step(l, st, op))
  {
    var st' := Step(l, st, op);
    forall id | id in st'.selected && id in st'.store.sessions
      ensures !st'.store.sessions[id].completed && st'.store.sessions[id].expiresAt < st'.time
    {
      if id in st.selected {
        assert id in st.store.sessions;
      }
    }
    forall id | id in st'.popped ensures id !in st'.store.sessions {
      if id in st.popped {
        assert id !in st.store.sessions;
      }
    }
  }

  ghost predicate Invariant(l: Limits, st: State) {
    AllSound(l, st.store) && Dead(st) && Known(st)
  }

  lemma {:induction false} RunKeeps(l: Limits, start: real, ops: seq<Op>)
    requires IsRun(l, start, ops)
    ensures Invariant(l, Run(l, start, ops))
  {
    if ops == [] {
    } else {
      var earlier, op := ops[..|ops| - 1], ops[|ops| - 1];
      RunKeeps(l, start, earlier);
      CallKeepsSound(l, Run(l, start, earlier), op);
      CallKeepsDead(l, Run(l, start, earlier), op);
    }
  }

  // ----- What holds of every run ----------------------------------------------------------

  /** For every unfinished session of every run, `received_chunks` is exactly the set of chunks on
      disk, none of them empty or out of range, and `received_bytes` their total size, never above
      the maximum. */
  lemma ReceivedIsStored(l: Limits, start: real, ops: seq<Op>, id: string)
    requires IsRun(l, start, ops)
    requires id in Run(l, start, ops).store.sessions && !Run(l, start, ops).store.sessions[id].completed
    ensures var s := Run(l, start, ops).store;
            id in s.directories && Consistent(s.sessions[id], s.directories[id], l.maxUploadBytes)
  {
    RunKeeps(l, start, ops);
    var s := Run(l, start, ops).store;
    assert Sound(s.sessions[id], id, s, l.maxUploadBytes);
  }

  // ----- Who may use a session ------------------------------------------------------------

  predicate Asks(op: Op) {
    op.Get? || op.Save? || op.Finalize?
  }

  /** Of whatever store: a call about no session finds none, one about an expired session removes it,
      and one by anyone but its owner is refused and changes nothing. */
  lemma StrangersRefused(l: Limits, s: Store, op: Op)
    requires Asks(op)
    ensures op.id !in s.sessions ==> Called(l, s, op) == (s, Some(SessionNotFound))
    ensures op.id in s.sessions && op.now > s.sessions[op.id].expiresAt ==>
              Called(l, s, op) == (Store(s.sessions - {op.id}, s.directories - {op.id}, s.artifacts), Some(SessionExpired))
    ensures op.id in s.sessions && op.now <= s.sessions[op.id].expiresAt &&
            (op.ownerId == "" || op.ownerId != s.sessions[op.id].ownerId) ==>
              Called(l, s, op) == (s, Some(ForbiddenOwner))
  {
    match op
    case Get(_, _, _) =>
    case Save(_, _, _, _, _) =>
    case Finalize(_, _, _, _) =>
  }

  /** And the owner of a session in time is refused for none of these reasons: looking it up just
      succeeds. */
  lemma OwnerGetsThrough(l: Limits, s: Store, op: Op)
    requires Asks(op) && op.id in s.sessions && op.now <= s.sessions[op.id].expiresAt
    requires op.ownerId != "" && op.ownerId == s.sessions[op.id].ownerId
    ensures Called(l, s, op).1 !in {Some(SessionNotFound), Some(SessionExpired), Some(ForbiddenOwner), Some(MissingOwner)}
    ensures op.Get? ==> Called(l, s, op) == (s, None)
    ensures s.sessions[op.id].completed ==> Called(l, s, op) == (s, if op.Save? then Some(SessionAlreadyFinalized) else None)
  {
    match op
    case Get(_, _, _) =>
    case Save(_, _, _, _, _) =>
    case Finalize(_, _, _, _) =>
  }

  /** A session is created exactly when there is an owner, the type is allowed, and both sizes are
      positive and within the maximum. Then it can be looked up by that owner and nobody else, up to
      the end of its time and no longer, and it has what was announced and no chunk. */
  lemma CreatedForItsOwner(l: Limits, s: Store, op: Op, visitor: string, later: real)
    requires op.Create?
    ensures var (s', error) := Called(l, s, op);
            && (error == None <==> op.ownerId != "" && op.contentType in l.allowedContentTypes &&
                                   0 < op.totalSize <= l.maxUploadBytes && op.totalChunks > 0)
            && (error != None ==> s' == s)
            && (error == None ==>
                  && s'.artifacts == s.artifacts && s'.sessions.Keys == s.sessions.Keys + {op.id}
                  && s'.sessions - {op.id} == s.sessions - {op.id}
                  && s'.sessions[op.id].totalSize == op.totalSize && s'.sessions[op.id].totalChunks == op.totalChunks
                  && s'.sessions[op.id].receivedChunks == {} && s'.sessions[op.id].receivedBytes == 0
                  && !s'.sessions[op.id].completed
                  && (Called(l, s', Get(op.id, visitor, later)).1 == None <==>
                        visitor == op.ownerId && later <= op.now + l.ttl)
                  && (Called(l, s', Get(op.id, visitor, later)).1 == Some(SessionExpired) <==> later > op.now + l.ttl))
  {
  }

  /** A session that the next call may use. */
  predicate Usable(s: Store, id: string, ownerId: string, now: real) {
    id in s.sessions && now <= s.sessions[id].expiresAt && ownerId != "" && s.sessions[id].ownerId == ownerId
  }

  /** When a chunk is accepted, and that one too many bytes costs the chunk its place even where an
      accepted one stood there before. All other chunks stay. */
  lemma SaveExactly(l: Limits, start: real, ops: seq<Op>, id: string, ownerId: string, index: int, data: Bytes, now: real)
    requires IsRun(l, start, ops) && Usable(Run(l, start, ops).store, id, ownerId, now)
    requires !Run(l, start, ops).store.sessions[id].completed
    ensures var s := Run(l, start, ops).store;
            var (s', error) := Saved(s, l, id, ownerId, index, data, now);
            var x, d := s.sessions[id], DirectoryOf(s.directories, id);
            var at: nat := if index < 0 then 0 else index;
            var fits := x.receivedBytes - ChunkSize(d, index) + |data| <= l.maxUploadBytes;
            && (error == Some(InvalidChunkIndex) <==> !(0 <= index < x.totalChunks))
            && (error == Some(EmptyChunk) <==> 0 <= index < x.totalChunks && data == [])
            && (error == Some(FileTooLarge) <==> 0 <= index < x.totalChunks && data != [] && !fits)
            && (error == None <==> 0 <= index < x.totalChunks && data != [] && fits)
            && (error == None ==> s'.directories == s.directories[id := d[at := data]])
            && (error == Some(FileTooLarge) ==> s'.directories == s.directories[id := d - {at}])
            && (error.Some? && error != Some(FileTooLarge) ==> s' == s)
            && s'.sessions[id].receivedChunks == DirectoryOf(s'.directories, id).Keys
            && s'.artifacts == s.artifacts && s'.sessions - {id} == s.sessions - {id}
  {
    ReceivedIsStored(l, start, ops, id);
    var x, d := Run(l, start, ops).store.sessions[id], Run(l, start, ops).store.directories[id];
    if 0 <= index < x.totalChunks && data != [] {
      StoredConsistent(x, d, l, index, data);
    }
  }

  /** Finalizing succeeds exactly when every chunk is on disk and they add up to the announced
      size, and then the artifact is the chunks in order, of exactly that size. */
  lemma FinalizeExactly(l: Limits, start: real, ops: seq<Op>, id: string, ownerId: string, artifactId: string, now: real)
    requires IsRun(l, start, ops) && Usable(Run(l, start, ops).store, id, ownerId, now)
    requires !Run(l, start, ops).store.sessions[id].completed
    ensures var s := Run(l, start, ops).store;
            var (s', error) := Finalized(s, id, ownerId, artifactId, now);
            var x, d := s.sessions[id], DirectoryOf(s.directories, id);
            && (error == None <==>
                 (forall i :: 0 <= i < x.totalChunks ==> i in d) && |Assembled(d, x.totalChunks)| == x.totalSize)
            && (error == Some(IncompleteUpload) <==> exists i :: 0 <= i < x.totalChunks && i !in d)
            && (error == Some(SizeMismatch) <==>
                 (forall i :: 0 <= i < x.totalChunks ==> i in d) && |Assembled(d, x.totalChunks)| != x.totalSize)
            && (error == None ==>
                 && s'.artifacts == s.artifacts[artifactId := Assembled(d, x.totalChunks)]
                 && s'.sessions[id].completed && s'.sessions[id].artifactId == Some(artifactId)
                 && s'.sessions - {id} == s.sessions - {id} && s'.directories == s.directories - {id})
            && (error.Some? ==> s' == s)
  {
    ReceivedIsStored(l, start, ops, id);
    var x, d := Run(l, start, ops).store.sessions[id], Run(l, start, ops).store.directories[id];
    AssembledLength(d, x.totalChunks);
    assert HasAllChunks(x) <==> forall i :: 0 <= i < x.totalChunks ==> i in d;
  }

  // ----- From pieces to the artifact --------------------------------------------------------

  /** Every chunk that was accepted for a session carried the piece of its index. */
  predicate CarriesPieces(l: Limits, start: real, ops: seq<Op>, id: string, pieces: Directory) {
    ops == [] ||
    var earlier, op := ops[..|ops| - 1], ops[|ops| - 1];
    && CarriesPieces(l, start, earlier, id, pieces)
    && (op.Save? && op.id == id && Called(l, Run(l, start, earlier).store, op).1.None? ==>
          op.index in pieces && pieces[op.index] == op.data)
  }

  ghost predicate HoldsPieces(s: Store, id: string, pieces: Directory) {
    && (forall i :: i in DirectoryOf(s.directories, id) ==> i in pieces && s.directories[id][i] == pieces[i])
    && (id in s.sessions && s.sessions[id].completed ==>
          && s.sessions[id].artifactId.Some? && s.sessions[id].artifactId.value in s.artifacts
          && s.artifacts[s.sessions[id].artifactId.value] == Assembled(pieces, s.sessions[id].totalChunks))
  }

  lemma {:induction false} AssembledAgree(d: Directory, pieces: Directory, n: int)
    requires forall i :: 0 <= i < n ==> i in d && i in pieces && d[i] == pieces[i]
    ensures Assembled(d, n) == Assembled(pieces, n)
    decreases if n < 0 then 0 else n
  {
    if n > 0 {
      AssembledAgree(d, pieces, n - 1);
    }
  }

  lemma CallHoldsPieces(l: Limits, st: State, op: Op, id: string, pieces: Directory)
    requires Invariant(l, st) && Legal(st, op) && HoldsPieces(st.store, id, pieces)
    requires op.Save? && op.id == id && Called(l, st.store, op).1.None? ==> op.index in pieces && pieces[op.index] == op.data
    ensures HoldsPieces(Called(l, st.store, op).0, id, pieces)
  {
    var s := st.store;
    if id in s.sessions {
      assert Sound(s.sessions[id], id, s, l.maxUploadBytes);
      if op.Save? && op.id == id {
        SaveHoldsPieces(l, s, op, pieces);
      } else if op.Finalize? && op.id == id {
        FinalizeHoldsPieces(l, s, op, pieces);
      }
    }
  }

  lemma SaveHoldsPieces(l: Limits, s: Store, op: Op, pieces: Directory)
    requires op.Save? && op.id in s.sessions && Sound(s.sessions[op.id], op.id, s, l.maxUploadBytes)
    requires HoldsPieces(s, op.id, pieces)
    requires Called(l, s, op).1.None? ==> op.index in pieces && pieces[op.index] == op.data
    ensures HoldsPieces(Called(l, s, op).0, op.id, pieces)
  {
    var x := s.sessions[op.id];
    if !x.completed && 0 <= op.index < x.totalChunks && op.data != [] {
      StoredConsistent(x, s.directories[op.id], l, op.index, op.data);
    }
  }

  lemma FinalizeHoldsPieces(l: Limits, s: Store, op: Op, pieces: Directory)
    requires op.Finalize? && op.id in s.sessions && Sound(s.sessions[op.id], op.id, s, l.maxUploadBytes)
    requires op.artifactId !in s.artifacts && HoldsPieces(s, op.id, pieces)
    ensures HoldsPieces(Called(l, s, op).0, op.id, pieces)
  {
    var x := s.sessions[op.id];
    if !x.completed && HasAllChunks(x) {
      AssembledAgree(s.directories[op.id], pieces, x.totalChunks);
    }
  }

  lemma {:induction false} RunHoldsPieces(l: Limits, start: real, ops: seq<Op>, id: string, pieces: Directory)
    requires IsRun(l, start, ops) && CarriesPieces(l, start, ops, id, pieces)
    ensures HoldsPieces(Run(l, start, ops).store, id, pieces)
  {
    if ops == [] {
    } else {
      var earlier, op := ops[..|ops| - 1], ops[|ops| - 1];
      RunHoldsPieces(l, start, earlier, id, pieces);
      RunKeeps(l, start, earlier);
      CallHoldsPieces(l, Run(l, start, earlier), op, id, pieces);
    }
  }

  /** A file cut into pieces at the given places: piece `i` reaches from the `i`-th place to the next. */
  ghost predicate CutAt(file: Bytes, places: seq<nat>, pieces: Directory) {
    && places != [] && places[0] == 0
    && (forall i :: 0 <= i < |places| ==> places[i] <= |file|)
    && (forall i :: 0 <= i < |places| - 1 ==>
          places[i] <= places[i + 1] && i in pieces && pieces[i] == file[places[i]..places[i + 1]])
  }

  lemma {:induction false} PiecesMakeTheFile(file: Bytes, places: seq<nat>, pieces: Directory, n: nat)
    requires CutAt(file, places, pieces) && n < |places|
    ensures Assembled(pieces, n) == file[..places[n]]
  {
    if n == 0 {
    } else {
      PiecesMakeTheFile(file, places, pieces, n - 1);
      assert n - 1 in pieces && pieces[n - 1] == file[places[n - 1]..places[n - 1 + 1]];
    }
  }

  /** In whatever order, and however often, the pieces of a file arrive, and whatever else happens
      meanwhile: once the session is finalized, its artifact is the file, byte for byte. */
  lemma ArtifactIsTheFile(l: Limits, start: real, ops: seq<Op>, id: string, file: Bytes, places: seq<nat>, pieces: Directory)
    requires IsRun(l, start, ops) && CarriesPieces(l, start, ops, id, pieces)
    requires id in Run(l, start, ops).store.sessions && Run(l, start, ops).store.sessions[id].completed
    requires CutAt(file, places, pieces) && places[|places| - 1] == |file|
    requires |places| == Run(l, start, ops).store.sessions[id].totalChunks + 1
    ensures var s := Run(l, start, ops).store;
            var x := s.sessions[id];
            && x.artifactId.Some? && x.artifactId.value in s.artifacts
            && s.artifacts[x.artifactId.value] == file
            && |file| == x.totalSize
  {
    PiecesMakeTheFile(file, places, pieces, |places| - 1);
    RunHoldsPieces(l, start, ops, id, pieces);
    RunKeeps(l, start, ops);
    var s := Run(l, start, ops).store;
    assert Sound(s.sessions[id], id, s, l.maxUploadBytes);
  }

  // ----- The purge --------------------------------------------------------------------------

  /** A purge selects only sessions that are expired and were never finalized, and whatever happens
      between its phases they stay so: no later call can use them, whether or not they have been
      deleted by then. */
  lemma SelectedAreDead(l: Limits, start: real, ops: seq<Op>, id: string, ownerId: string, later: real)
    requires IsRun(l, start, ops)
    requires id in Run(l, start, ops).selected && later >= Run(l, start, ops).time
    ensures var s := Run(l, start, ops).store;
            && (id in s.sessions ==> !s.sessions[id].completed && s.sessions[id].expiresAt < later)
            && Required(s, id, ownerId, later).1 in {Some(SessionNotFound), Some(SessionExpired)}
  {
    RunKeeps(l, start, ops);
  }

  /** A purge misses none: it selects exactly the unfinished sessions whose time is over, and the
      three steps leave neither such a session nor its chunks. */
  lemma PurgeSelectsExactly(l: Limits, st: State, id: string, now: real)
    ensures var selected := Step(l, st, Select(now)).selected;
            id in selected <==>
            (id in st.selected ||
             (id in st.store.sessions && !st.store.sessions[id].completed && st.store.sessions[id].expiresAt < now))
    ensures var s' := Called(l, Called(l, Called(l, st.store, Select(now)).0, Pop(id)).0, Remove(id)).0;
            s' == Store(st.store.sessions - {id}, st.store.directories - {id}, st.store.artifacts)
  {
  }

  ghost predicate SameUpload(x: Session, y: Session) {
    && x.ownerId == y.ownerId && x.totalSize == y.totalSize && x.totalChunks == y.totalChunks
    && x.expiresAt == y.expiresAt && (x.completed ==> y.completed && y.artifactId == x.artifactId)
  }

  lemma CallKeepsUpload(l: Limits, st: State, op: Op, id: string)
    requires Invariant(l, st) && Legal(st, op)
    requires id in st.store.sessions && TimeOf(st, op) <= st.store.sessions[id].expiresAt
    ensures var s' := Called(l, st.store, op).0;
            id in s'.sessions && SameUpload(st.store.sessions[id], s'.sessions[id])
  {
    match op
    case Save(_, _, _, _, _) => SaveKeepsUpload(l, st.store, op, id);
    case _ =>
  }

  lemma SaveKeepsUpload(l: Limits, s: Store, op: Op, id: string)
    requires op.Save? && id in s.sessions && op.now <= s.sessions[id].expiresAt
    ensures var s' := Called(l, s, op).0;
            id in s'.sessions && SameUpload(s.sessions[id], s'.sessions[id])
  {
  }

  /** Until it expires no session is lost, whatever calls and purges there are, and none changes its
      owner, its announced size or, once it has one, its artifact. */
  lemma {:induction false} KeptUntilExpiry(l: Limits, start: real, ops: seq<Op>, n: nat, id: string)
    requires IsRun(l, start, ops) && n <= |ops| && id in Run(l, start, ops[..n]).store.sessions
    requires Run(l, start, ops).time <= Run(l, start, ops[..n]).store.sessions[id].expiresAt
    ensures id in Run(l, start, ops).store.sessions
    ensures SameUpload(Run(l, start, ops[..n]).store.sessions[id], Run(l, start, ops).store.sessions[id])
  {
    if n == |ops| {
      assert ops[..n] == ops;
    } else {
      var earlier, op := ops[..|ops| - 1], ops[|ops| - 1];
      assert earlier[..n] == ops[..n];
      KeptUntilExpiry(l, start, earlier, n, id);
      RunKeeps(l, start, earlier);
      CallKeepsUpload(l, Run(l, start, earlier), op, id);
    }
  }

  /** Deleting touches nothing but a selected session: every other session, every directory of a
      session, and all artifacts stay. */
  lemma PurgeConfined(l: Limits, start: real, ops: seq<Op>, op: Op)
    requires IsRun(l, start, ops) && Legal(Run(l, start, ops), op) && (op.Pop? || op.Remove?)
    ensures var s, s' := Run(l, start, ops).store, Called(l, Run(l, start, ops).store, op).0;
            && s'.artifacts == s.artifacts
            && (forall id :: id in s.sessions && (id != op.id || op.Remove?) ==>
                  && id in s'.sessions && s'.sessions[id] == s.sessions[id]
                  && (id in s.directories ==> id in s'.directories && s'.directories[id] == s.directories[id]))
  {
    RunKeeps(l, start, ops);
  }

  /** Whether a purge has deleted a session yet makes no difference to a call, but for the reason
      given when the call is about that very session, which it refuses either way. */
  lemma DeletionIsInvisible(l: Limits, start: real, ops: seq<Op>, id: string, call: Op)
    requires IsRun(l, start, ops) && id in Run(l, start, ops).selected
    requires Legal(Run(l, start, ops), call) && (call.Get? || call.Save? || call.Finalize?)
    ensures SameButFor(id, call.id, Called(l, Run(l, start, ops).store, call),
                       Called(l, Called(l, Run(l, start, ops).store, Pop(id)).0, call))
  {
    RunKeeps(l, start, ops);
    var s := Run(l, start, ops).store;
    if call.id != id {
      OtherCallUnchanged(l, s, id, call);
    } else if id in s.sessions {
      ExpiredCallRefused(l, s, call);
    }
  }

  ghost predicate SameButFor(id: string, called: string, kept: (Store, Option<Error>), popped: (Store, Option<Error>)) {
    && (if called == id then kept.1.Some? && popped.1.Some? else kept.1 == popped.1)
    && popped.0.sessions == kept.0.sessions - {id}
    && popped.0.artifacts == kept.0.artifacts
    && popped.0.directories - {id} == kept.0.directories - {id}
  }

  lemma ExpiredCallRefused(l: Limits, s: Store, call: Op)
    requires call.Get? || call.Save? || call.Finalize?
    requires call.id in s.sessions && s.sessions[call.id].expiresAt < call.now
    ensures Called(l, s, call) == (Purged(s, call.id), Some(SessionExpired))
  {
  }

  lemma OtherCallUnchanged(l: Limits, s: Store, id: string, call: Op)
    requires (call.Get? || call.Save? || call.Finalize?) && call.id != id
    ensures SameButFor(id, call.id, Called(l, s, call), Called(l, s.(sessions := s.sessions - {id}), call))
  {
    var popped := s.(sessions := s.sessions - {id});
    OtherRequired(s, id, call.id, call.ownerId, call.now);
    match call
    case Get(_, _, _) =>
    case Save(_, _, _, _, _) =>
      OtherSaved(l, s, id, call);
    case Finalize(_, _, _, _) =>
      OtherFinalized(l, s, id, call);
  }

  lemma OtherRequired(s: Store, id: string, other: string, ownerId: string, now: real)
    requires other != id
    ensures SameButFor(id, other, Required(s, other, ownerId, now),
                       Required(s.(sessions := s.sessions - {id}), other, ownerId, now))
  {
  }

  lemma OtherSaved(l: Limits, s: Store, id: string, call: Op)
    requires call.Save? && call.id != id
    ensures SameButFor(id, call.id, Called(l, s, call), Called(l, s.(sessions := s.sessions - {id}), call))
  {
    OtherRequired(s, id, call.id, call.ownerId, call.now);
  }

  lemma OtherFinalized(l: Limits, s: Store, id: string, call: Op)
    requires call.Finalize? && call.id != id
    ensures SameButFor(id, call.id, Called(l, s, call), Called(l, s.(sessions := s.sessions - {id}), call))
  {
    OtherRequired(s, id, call.id, call.ownerId, call.now);
  }
}
