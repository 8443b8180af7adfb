/**
  The file-backed cache (packages/hub/node.ts, `nodeCache`): entries are written to a temporary name and
  renamed over their own.

  The state is a directory and the files it names.  Several writers, readers and deletes work on it at
  once, a put can fail or its process die at any point, and after a power loss the directory may be an
  earlier one and a file may miss whatever was not synced.  The events are the single file-system calls.
 */
module NodeCache {
  import opened Wrappers
  import opened EntryFraming

  /** `Entry` is the SHA-256 name of a key; `Temp` adds a random UUID and the `.tmp` suffix. */
  datatype Name = Entry(key: string) | Temp(key: string, uuid: nat)

  type Directory = map<Name, nat>

  /** The bytes of a file and how many of them are on the disk for sure. */
  datatype Inode = Inode(data: Bytes, durable: nat)

  /** A put that has completed. */
  datatype Commit = Commit(key: string, header: EntryHeader, body: Bytes)

  /** A put in progress: `body` is what the stream gave so far, `pending` what is not written yet. */
  datatype Writer = Writer(
    key: string,
    temp: Name,
    inode: nat,
    header: EntryHeader,
    body: Bytes,
    pending: Bytes,
    synced: bool
  )

  datatype Stage =
    | Opening
    | Streaming(header: EntryHeader, size: nat, position: nat, out: Bytes)
    | Ended(header: EntryHeader, out: Bytes)
    | Refused
    | Broken

  /** A match in progress; `entry` is the put whose file it opened. */
  datatype Reader = Reader(inode: nat, entry: Commit, stage: Stage)

  datatype State = State(
    dir: Directory,
    past: seq<Directory>,
    inodes: seq<Inode>,
    commits: map<nat, Commit>,
    writers: map<nat, Writer>,
    readers: map<nat, Reader>
  )

  datatype Event =
    | Begin(writer: nat, key: string, uuid: nat, header: EntryHeader)
    | Write(writer: nat, count: nat)
    | StreamChunk(writer: nat, bytes: Bytes)
    | Sync(writer: nat)
    | Rename(writer: nat)
    | Abandon(writer: nat, unlinked: bool)
    | Unlink(name: Name)
    | Open(reader: nat, key: string)
    | ReadHead(reader: nat, bytesRead: nat)
    | ReadBody(reader: nat, bytesRead: nat)
    | Close(reader: nat)
    | PowerLoss(back: nat, kept: seq<nat>)

  const Empty := State(map[], [], [], map[], map[], map[])

  // ----- transitions --------------------------------------------------------------------------

  predicate Enabled(codec: Codec, s: State, e: Event) {
    match e
    case Begin(w, key, uuid, _) =>
      && w !in s.writers && Temp(key, uuid) !in s.dir
      && forall v :: v in s.writers ==> s.writers[v].temp != Temp(key, uuid)
    case Write(w, count) => w in s.writers && 1 <= count <= |s.writers[w].pending| && s.writers[w].inode < |s.inodes|
    case StreamChunk(w, _) => w in s.writers && s.writers[w].pending == [] && !s.writers[w].synced
    case Sync(w) =>
      w in s.writers && s.writers[w].pending == [] && !s.writers[w].synced && s.writers[w].inode < |s.inodes|
    case Rename(w) => w in s.writers && s.writers[w].synced && s.writers[w].temp in s.dir
    case Abandon(w, _) => w in s.writers
    case Unlink(name) => name in s.dir
    case Open(r, key) =>
      r !in s.readers && Entry(key) in s.dir && s.dir[Entry(key)] in s.commits && s.dir[Entry(key)] < |s.inodes|
    case ReadHead(r, bytesRead) =>
      && r in s.readers && s.readers[r].stage.Opening? && s.readers[r].inode < |s.inodes|
      && bytesRead <= HEADER_LIMIT && bytesRead <= |s.inodes[s.readers[r].inode].data|
    case ReadBody(r, bytesRead) =>
      && r in s.readers && s.readers[r].stage.Streaming? && s.readers[r].inode < |s.inodes|
      && var file := s.inodes[s.readers[r].inode].data;
         var st := s.readers[r].stage;
         if st.position >= st.size then bytesRead == 0
         else
           && bytesRead <= CHUNK_BYTES && st.position + bytesRead <= st.size
           && (bytesRead == 0 <==> st.position >= |file|)
           && (bytesRead > 0 ==> st.position + bytesRead <= |file|)
    case Close(r) => r in s.readers
    case PowerLoss(back, kept) =>
      && back <= |s.past| && |kept| == |s.inodes|
      && forall i :: 0 <= i < |kept| ==> s.inodes[i].durable <= kept[i] <= |s.inodes[i].data|
  }

  function SetDir(s: State, dir: Directory): State {
    s.(dir := dir, past := s.past + [s.dir])
  }

  function Apply(codec: Codec, s: State, e: Event): State
    requires Enabled(codec, s, e)
  {
    match e
    case Begin(w, key, uuid, header) =>
      var writer := Writer(key, Temp(key, uuid), |s.inodes|, header, [], HeaderLine(codec, header), false);
      SetDir(s, s.dir[Temp(key, uuid) := |s.inodes|])
        .(inodes := s.inodes + [Inode([], 0)], writers := s.writers[w := writer])
    case Write(w, count) =>
      var writer := s.writers[w];
      var file := s.inodes[writer.inode];
      s.(inodes := s.inodes[writer.inode := file.(data := file.data + writer.pending[..count])],
         writers := s.writers[w := writer.(pending := writer.pending[count..])])
    case StreamChunk(w, bytes) =>
      var writer := s.writers[w];
      s.(writers := s.writers[w := writer.(body := writer.body + bytes, pending := bytes)])
    case Sync(w) =>
      var writer := s.writers[w];
      var file := s.inodes[writer.inode];
      s.(inodes := s.inodes[writer.inode := file.(durable := |file.data|)],
         writers := s.writers[w := writer.(synced := true)])
    case Rename(w) =>
      var writer := s.writers[w];
      SetDir(s, (s.dir - {writer.temp})[Entry(writer.key) := s.dir[writer.temp]])
        .(commits := s.commits[s.dir[writer.temp] := Commit(writer.key, writer.header, writer.body)],
          writers := s.writers - {w})
    case Abandon(w, unlinked) =>
      (if unlinked then SetDir(s, s.dir - {s.writers[w].temp}) else s).(writers := s.writers - {w})
    case Unlink(name) => SetDir(s, s.dir - {name})
    case Open(r, key) =>
      var inode := s.dir[Entry(key)];
      s.(readers := s.readers[r := Reader(inode, s.commits[inode], Opening)])
    case ReadHead(r, bytesRead) =>
      var reader := s.readers[r];
      var stage := match OpenEntry(codec, s.inodes[reader.inode].data, bytesRead)
        case Corrupt => Refused
        case Opened(header, bodyOffset, size) => Streaming(header, size, bodyOffset, []);
      s.(readers := s.readers[r := reader.(stage := stage)])
    case ReadBody(r, bytesRead) =>
      var reader := s.readers[r];
      var st := reader.stage;
      var file := s.inodes[reader.inode].data;
      var stage :=
        if st.position >= st.size then Ended(st.header, st.out)
        else if bytesRead == 0 then Broken
        else st.(position := st.position + bytesRead, out := st.out + file[st.position..st.position + bytesRead]);
      s.(readers := s.readers[r := reader.(stage := stage)])
    case Close(r) => s.(readers := s.readers - {r})
    case PowerLoss(back, kept) =>
      s.(dir := if back == |s.past| then s.dir else s.past[back],
         past := [],
         inodes := seq(|s.inodes|, i requires 0 <= i < |s.inodes| =>
                         Inode(s.inodes[i].data[..kept[i]], s.inodes[i].durable)),
         writers := map[],
         readers := map[])
  }

  predicate Legal(codec: Codec, s: State, events: seq<Event>)
    decreases |events|
  {
    events != [] ==> Enabled(codec, s, events[0]) && Legal(codec, Apply(codec, s, events[0]), events[1..])
  }

  function After(codec: Codec, s: State, events: seq<Event>): State
    requires Legal(codec, s, events)
    decreases |events|
  {
    if events == [] then s else After(codec, Apply(codec, s, events[0]), events[1..])
  }

  // ----- invariants ---------------------------------------------------------------------------

  /** The entry names of a directory name whole files of completed puts of their own key. */
  ghost predicate NamesCommits(s: State, dir: Directory) {
    forall key :: Entry(key) in dir ==> dir[Entry(key)] in s.commits && s.commits[dir[Entry(key)]].key == key
  }

  ghost predicate Directories(s: State) {
    NamesCommits(s, s.dir) && forall i :: 0 <= i < |s.past| ==> NamesCommits(s, s.past[i])
  }

  /** The file of a completed put is exactly what that put printed, all of it on the disk. */
  ghost predicate Files(codec: Codec, s: State) {
    && (forall i :: 0 <= i < |s.inodes| ==> s.inodes[i].durable <= |s.inodes[i].data|)
    && (forall i :: i in s.commits ==>
          && i < |s.inodes|
          && s.inodes[i].data == Print(codec, s.commits[i].header, s.commits[i].body)
          && s.inodes[i].durable == |s.inodes[i].data|)
  }

  /** A writer alone owns its file, which holds what it printed so far and no entry names. */
  ghost predicate GoodWriter(codec: Codec, s: State, writer: Writer) {
    && writer.inode < |s.inodes|
    && writer.inode !in s.commits
    && writer.temp.Temp?
    && (writer.temp in s.dir ==> s.dir[writer.temp] == writer.inode)
    && s.inodes[writer.inode].data + writer.pending == HeaderLine(codec, writer.header) + writer.body
    && (writer.synced ==> writer.pending == [] && s.inodes[writer.inode].durable == |s.inodes[writer.inode].data|)
  }

  ghost predicate Writers(codec: Codec, s: State) {
    && (forall w :: w in s.writers ==> GoodWriter(codec, s, s.writers[w]))
    && (forall v, w :: v in s.writers && w in s.writers && v != w ==>
          s.writers[v].inode != s.writers[w].inode && s.writers[v].temp != s.writers[w].temp)
  }

  /** A reader has streamed a prefix of the body it opened, under the header it opened. */
  ghost predicate GoodReader(codec: Codec, s: State, reader: Reader) {
    && reader.inode in s.commits && s.commits[reader.inode] == reader.entry
    && var line := HeaderLine(codec, reader.entry.header);
       var file := Print(codec, reader.entry.header, reader.entry.body);
       match reader.stage
       case Streaming(header, size, position, out) =>
         && header == reader.entry.header && size == |file|
         && |line| <= position <= size && out == file[|line|..position]
       case Ended(header, out) => header == reader.entry.header && out == reader.entry.body
       case Broken => false
       case _ => true
  }

  ghost predicate Readers(codec: Codec, s: State) {
    forall r :: r in s.readers ==> GoodReader(codec, s, s.readers[r])
  }

  ghost predicate Inv(codec: Codec, s: State) {
    Directories(s) && Files(codec, s) && Writers(codec, s) && Readers(codec, s)
  }

  /** Completed puts stay, and their files with them. */
  lemma StepKeepsCommits(codec: Codec, s: State, e: Event)
    requires Writers(codec, s) && Enabled(codec, s, e)
    ensures var t := Apply(codec, s, e);
            forall i :: i in s.commits ==> i in t.commits && t.commits[i] == s.commits[i]
  {
    if e.Rename? {
      assert GoodWriter(codec, s, s.writers[e.writer]);
    }
  }

  lemma StepKeepsDirectories(codec: Codec, s: State, e: Event)
    requires Directories(s) && Writers(codec, s) && Enabled(codec, s, e)
    ensures Directories(Apply(codec, s, e))
  {
    var t := Apply(codec, s, e);
    StepKeepsCommits(codec, s, e);
    forall dir: Directory | NamesCommits(s, dir)
      ensures NamesCommits(t, dir)
    {
    }
    if e.Rename? {
      assert GoodWriter(codec, s, s.writers[e.writer]);
    }
    assert NamesCommits(t, t.dir);
  }

  /** What reached the disk is what a power loss leaves of a completed put. */
  lemma PowerLossKeepsFiles(codec: Codec, s: State, e: Event)
    requires Files(codec, s) && Enabled(codec, s, e) && e.PowerLoss?
    ensures Files(codec, Apply(codec, s, e))
  {
    var t := Apply(codec, s, e);
    forall i | i in s.commits
      ensures i < |t.inodes| && t.inodes[i].data == s.inodes[i].data && t.inodes[i].durable == s.inodes[i].durable
    {
      assert e.kept[i] == |s.inodes[i].data|;
    }
  }

  lemma WriterKeepsFiles(codec: Codec, s: State, e: Event)
    requires Files(codec, s) && Enabled(codec, s, e) && (e.Write? || e.Sync?)
    requires GoodWriter(codec, s, s.writers[e.writer])
    ensures Files(codec, Apply(codec, s, e))
  {
  }

  lemma RenameKeepsFiles(codec: Codec, s: State, e: Event)
    requires Files(codec, s) && Enabled(codec, s, e) && e.Rename?
    requires GoodWriter(codec, s, s.writers[e.writer])
    ensures Files(codec, Apply(codec, s, e))
  {
    var writer := s.writers[e.writer];
    assert s.inodes[writer.inode].data == s.inodes[writer.inode].data + writer.pending;
  }

  lemma StepKeepsFiles(codec: Codec, s: State, e: Event)
    requires Files(codec, s) && Writers(codec, s) && Enabled(codec, s, e)
    ensures Files(codec, Apply(codec, s, e))
  {
    if e.Write? || e.Sync? {
      WriterKeepsFiles(codec, s, e);
    } else if e.Rename? {
      RenameKeepsFiles(codec, s, e);
    } else if e.PowerLoss? {
      PowerLossKeepsFiles(codec, s, e);
    }
  }

  lemma OwnStepKeepsWriter(codec: Codec, s: State, e: Event, w: nat)
    requires Inv(codec, s) && Enabled(codec, s, e) && w in s.writers
    requires e == Sync(w) || (e.Write? && e.writer == w) || (e.StreamChunk? && e.writer == w)
    ensures var t := Apply(codec, s, e); w in t.writers && GoodWriter(codec, t, t.writers[w])
  {
    var writer := s.writers[w];
    assert GoodWriter(codec, s, writer);
    var data, line := s.inodes[writer.inode].data, HeaderLine(codec, writer.header);
    match e
    case Write(_, count) =>
      assert data + writer.pending[..count] + writer.pending[count..] == data + writer.pending;
    case StreamChunk(_, bytes) =>
      assert data == data + writer.pending;
      assert data + bytes == line + writer.body + bytes == line + (writer.body + bytes);
    case Sync(_) =>
  }

  ghost predicate Undisturbed(s: State, t: State, writer: Writer)
    requires writer.inode < |s.inodes|
  {
    && writer.inode < |t.inodes|
    && t.inodes[writer.inode] == s.inodes[writer.inode]
    && (writer.inode in t.commits ==> writer.inode in s.commits)
    && (writer.temp in t.dir ==> writer.temp in s.dir && t.dir[writer.temp] == s.dir[writer.temp])
  }

  /** The step of another writer leaves a writer's file and temporary name alone. */
  lemma WritersDoNotDisturb(codec: Codec, s: State, e: Event, v: nat, w: nat)
    requires v in s.writers && w in s.writers && v != w
    requires GoodWriter(codec, s, s.writers[v]) && GoodWriter(codec, s, s.writers[w])
    requires s.writers[v].inode != s.writers[w].inode && s.writers[v].temp != s.writers[w].temp
    requires Enabled(codec, s, e)
    requires (e.Write? && e.writer == v) || e == Sync(v) || e == Rename(v) || (e.Abandon? && e.writer == v)
    ensures Undisturbed(s, Apply(codec, s, e), s.writers[w])
  {
  }

  lemma OtherStepKeepsWriter(codec: Codec, s: State, e: Event, w: nat)
    requires Writers(codec, s) && Enabled(codec, s, e) && w in s.writers && w in Apply(codec, s, e).writers
    requires e != Sync(w) && !(e.Write? && e.writer == w) && Apply(codec, s, e).writers[w] == s.writers[w]
    ensures GoodWriter(codec, Apply(codec, s, e), s.writers[w])
  {
    assert GoodWriter(codec, s, s.writers[w]);
    if e.Write? || e.Sync? || e.Rename? || e.Abandon? {
      WritersDoNotDisturb(codec, s, e, e.writer, w);
    }
  }

  lemma StepKeepsWriters(codec: Codec, s: State, e: Event)
    requires Inv(codec, s) && Enabled(codec, s, e)
    ensures Writers(codec, Apply(codec, s, e))
  {
    var t := Apply(codec, s, e);
    StepKeepsWritersApart(codec, s, e);
    forall w | w in t.writers
      ensures GoodWriter(codec, t, t.writers[w])
    {
      if e == Sync(w) || (e.Write? && e.writer == w) || (e.StreamChunk? && e.writer == w) {
        OwnStepKeepsWriter(codec, s, e, w);
      } else if w in s.writers {
        OtherStepKeepsWriter(codec, s, e, w);
      }
    }
  }

  lemma StepKeepsWritersApart(codec: Codec, s: State, e: Event)
    requires Writers(codec, s) && Enabled(codec, s, e)
    ensures var t := Apply(codec, s, e);
            forall v, w :: v in t.writers && w in t.writers && v != w ==>
              t.writers[v].inode != t.writers[w].inode && t.writers[v].temp != t.writers[w].temp
  {
    var t := Apply(codec, s, e);
    forall w | w in t.writers
      ensures w in s.writers ==> t.writers[w].inode == s.writers[w].inode && t.writers[w].temp == s.writers[w].temp
      ensures w !in s.writers ==> e.Begin? && e.writer == w
    {
    }
    if e.Begin? {
      forall v | v in s.writers
        ensures s.writers[v].inode < |s.inodes|
      {
        assert GoodWriter(codec, s, s.writers[v]);
      }
    }
  }

  lemma HeadKeepsReader(codec: Codec, s: State, r: nat, bytesRead: nat)
    requires Sound(codec) && Files(codec, s) && Readers(codec, s) && Enabled(codec, s, ReadHead(r, bytesRead))
    ensures var t := Apply(codec, s, ReadHead(r, bytesRead)); GoodReader(codec, t, t.readers[r])
  {
    var reader := s.readers[r];
    assert GoodReader(codec, s, reader);
    OpenPrinted(codec, reader.entry.header, reader.entry.body, bytesRead);
  }

  lemma BodyKeepsReader(codec: Codec, s: State, r: nat, bytesRead: nat)
    requires Sound(codec) && Files(codec, s) && Readers(codec, s) && Enabled(codec, s, ReadBody(r, bytesRead))
    ensures var t := Apply(codec, s, ReadBody(r, bytesRead)); GoodReader(codec, t, t.readers[r])
  {
    var reader := s.readers[r];
    assert GoodReader(codec, s, reader);
    var file := s.inodes[reader.inode].data;
    OpenPrinted(codec, reader.entry.header, reader.entry.body, 0);
  }

  lemma ReaderStays(codec: Codec, s: State, t: State, reader: Reader)
    requires GoodReader(codec, s, reader)
    requires forall i :: i in s.commits ==> i in t.commits && t.commits[i] == s.commits[i]
    ensures GoodReader(codec, t, reader)
  {
  }

  lemma OtherStepKeepsReader(codec: Codec, s: State, e: Event, r: nat)
    requires Writers(codec, s) && Enabled(codec, s, e) && r in s.readers && GoodReader(codec, s, s.readers[r])
    ensures GoodReader(codec, Apply(codec, s, e), s.readers[r])
  {
    StepKeepsCommits(codec, s, e);
    ReaderStays(codec, s, Apply(codec, s, e), s.readers[r]);
  }

  /** A file just opened is that of a completed put. */
  lemma OpenedIsGood(codec: Codec, s: State, r: nat, key: string)
    requires Enabled(codec, s, Open(r, key))
    ensures GoodReader(codec, Apply(codec, s, Open(r, key)), Apply(codec, s, Open(r, key)).readers[r])
  {
  }

  /** Only its own events change a reader. */
  lemma ReaderAlone(codec: Codec, s: State, e: Event, r: nat)
    requires Enabled(codec, s, e) && r in Apply(codec, s, e).readers
    requires !(e.ReadHead? && e.reader == r) && !(e.ReadBody? && e.reader == r)
    ensures if r in s.readers then Apply(codec, s, e).readers[r] == s.readers[r] else e.Open? && e.reader == r
  {
  }

  lemma StepKeepsReader(codec: Codec, s: State, e: Event, r: nat)
    requires Sound(codec) && Files(codec, s) && Writers(codec, s) && Readers(codec, s) && Enabled(codec, s, e)
    requires r in Apply(codec, s, e).readers
    ensures GoodReader(codec, Apply(codec, s, e), Apply(codec, s, e).readers[r])
  {
    if e.ReadHead? && e.reader == r {
      HeadKeepsReader(codec, s, r, e.bytesRead);
    } else if e.ReadBody? && e.reader == r {
      BodyKeepsReader(codec, s, r, e.bytesRead);
    } else {
      ReaderAlone(codec, s, e, r);
      if r in s.readers {
        OtherStepKeepsReader(codec, s, e, r);
      } else {
        OpenedIsGood(codec, s, r, e.key);
      }
    }
  }

  lemma StepKeepsReaders(codec: Codec, s: State, e: Event)
    requires Sound(codec) && Inv(codec, s) && Enabled(codec, s, e)
    ensures Readers(codec, Apply(codec, s, e))
  {
    forall r | r in Apply(codec, s, e).readers
      ensures GoodReader(codec, Apply(codec, s, e), Apply(codec, s, e).readers[r])
    {
      StepKeepsReader(codec, s, e, r);
    }
  }

  lemma StepKeepsInv(codec: Codec, s: State, e: Event)
    requires Sound(codec) && Inv(codec, s) && Enabled(codec, s, e)
    ensures Inv(codec, Apply(codec, s, e))
  {
    StepKeepsDirectories(codec, s, e);
    StepKeepsFiles(codec, s, e);
    StepKeepsWriters(codec, s, e);
    StepKeepsReaders(codec, s, e);
  }

  lemma {:induction false} RunKeepsInv(codec: Codec, s: State, events: seq<Event>)
    requires Sound(codec) && Inv(codec, s) && Legal(codec, s, events)
    ensures Inv(codec, After(codec, s, events))
    decreases |events|
  {
    if events != [] {
      StepKeepsInv(codec, s, events[0]);
      RunKeepsInv(codec, Apply(codec, s, events[0]), events[1..]);
    }
  }

  lemma EmptyInv(codec: Codec)
    ensures Inv(codec, Empty)
  {
  }

  // ----- theorems over whole runs -------------------------------------------------------------

  /** What the cache holds under a key. */
  function Lookup(s: State, key: string): Option<Commit> {
    if Entry(key) in s.dir && s.dir[Entry(key)] in s.commits then Some(s.commits[s.dir[Entry(key)]]) else None
  }

  /**
    Whatever happened, an entry name is absent or names the whole file of one completed put for that key:
    that put's header line and that put's body.
   */
  lemma EntriesAreWhole(codec: Codec, events: seq<Event>, key: string)
    requires Sound(codec) && Legal(codec, Empty, events)
    requires Entry(key) in After(codec, Empty, events).dir
    ensures var s := After(codec, Empty, events);
            && Lookup(s, key).Some? && Lookup(s, key).value.key == key
            && s.dir[Entry(key)] < |s.inodes|
            && s.inodes[s.dir[Entry(key)]].data == Print(codec, Lookup(s, key).value.header, Lookup(s, key).value.body)
  {
    EmptyInv(codec);
    RunKeepsInv(codec, Empty, events);
  }

  /**
    Seen through lookups, every event is a step of a map of entries: a rename puts the writer's whole entry, an
    unlink of an entry removes it, a power loss may bring an earlier directory back, and nothing else changes
    anything.
   */
  lemma StepRefinesMap(codec: Codec, s: State, e: Event, key: string)
    requires Directories(s) && Writers(codec, s) && Enabled(codec, s, e)
    ensures var t := Apply(codec, s, e);
            match e
            case Rename(w) =>
              Lookup(t, key) == if key == s.writers[w].key
                                then Some(Commit(key, s.writers[w].header, s.writers[w].body))
                                else Lookup(s, key)
            case Unlink(name) => Lookup(t, key) == if name == Entry(key) then None else Lookup(s, key)
            case PowerLoss(back, _) =>
              Lookup(t, key) == if back == |s.past| then Lookup(s, key) else Lookup(s.(dir := s.past[back]), key)
            case _ => Lookup(t, key) == Lookup(s, key)
  {
    if e.Rename? || e.Abandon? {
      assert GoodWriter(codec, s, s.writers[e.writer]);
    }
  }

  // The cache as a map of whole entries, and the earlier maps a power loss can bring back.

  datatype View = View(now: map<string, Commit>, past: seq<map<string, Commit>>)

  datatype Op = Put(commit: Commit) | Remove(key: string) | Touch | Stay | Lose(back: nat)

  /** `Touch` changes the directory but no entry; a power loss keeps the newest map or an earlier one. */
  function ApplyOp(v: View, op: Op): View {
    match op
    case Put(commit) => View(v.now[commit.key := commit], v.past + [v.now])
    case Remove(key) => View(v.now - {key}, v.past + [v.now])
    case Touch => View(v.now, v.past + [v.now])
    case Stay => v
    case Lose(back) => View(if back < |v.past| then v.past[back] else v.now, [])
  }

  /** What an event does to the map. */
  function OpOf(codec: Codec, s: State, e: Event): Op
    requires Enabled(codec, s, e)
  {
    match e
    case Rename(w) => Put(Commit(s.writers[w].key, s.writers[w].header, s.writers[w].body))
    case Unlink(Entry(key)) => Remove(key)
    case Unlink(_) => Touch
    case Begin(_, _, _, _) => Touch
    case Abandon(_, unlinked) => if unlinked then Touch else Stay
    case PowerLoss(back, _) => Lose(back)
    case _ => Stay
  }

  function ApplyOps(codec: Codec, s: State, events: seq<Event>, v: View): View
    requires Legal(codec, s, events)
    decreases |events|
  {
    if events == [] then v
    else ApplyOps(codec, Apply(codec, s, events[0]), events[1..], ApplyOp(v, OpOf(codec, s, events[0])))
  }

  /** The answer of a map under a key. */
  function AnswerOf(entries: map<string, Commit>, key: string): Option<Commit> {
    if key in entries then Some(entries[key]) else None
  }

  /** The map holds what the directory answers. */
  ghost predicate Answers(s: State, dir: Directory, entries: map<string, Commit>) {
    forall key: string :: AnswerOf(entries, key) == Lookup(s.(dir := dir), key)
  }

  /** The view holds what the cache answers, now and as of its earlier directories. */
  ghost predicate Shows(s: State, v: View) {
    && Answers(s, s.dir, v.now)
    && |v.past| == |s.past|
    && forall i :: 0 <= i < |s.past| ==> Answers(s, s.past[i], v.past[i])
  }

  /** What is found under one key after an operation. */
  function AnswerAfter(s: State, op: Op, key: string): Option<Commit> {
    match op
    case Put(commit) => if key == commit.key then Some(commit) else Lookup(s, key)
    case Remove(removed) => if key == removed then None else Lookup(s, key)
    case Lose(back) => if back < |s.past| then Lookup(s.(dir := s.past[back]), key) else Lookup(s, key)
    case _ => Lookup(s, key)
  }

  lemma EventAnswers(codec: Codec, s: State, e: Event, key: string)
    requires Directories(s) && Writers(codec, s) && Enabled(codec, s, e)
    ensures Lookup(Apply(codec, s, e), key) == AnswerAfter(s, OpOf(codec, s, e), key)
  {
    StepRefinesMap(codec, s, e, key);
  }

  lemma OpAnswers(s: State, v: View, op: Op, key: string)
    requires Shows(s, v)
    ensures AnswerOf(ApplyOp(v, op).now, key) == AnswerAfter(s, op, key)
  {
    assert AnswerOf(v.now, key) == Lookup(s.(dir := s.dir), key) == Lookup(s, key);
    if op.Lose? && op.back < |s.past| {
      assert Answers(s, s.past[op.back], v.past[op.back]);
    }
  }

  /** A directory answers as before as long as the completed puts it names are there. */
  lemma AnswersStay(s: State, t: State, dir: Directory, entries: map<string, Commit>)
    requires NamesCommits(s, dir) && Answers(s, dir, entries)
    requires forall i :: i in s.commits ==> i in t.commits && t.commits[i] == s.commits[i]
    ensures Answers(t, dir, entries)
  {
    forall key: string
      ensures AnswerOf(entries, key) == Lookup(t.(dir := dir), key)
    {
      assert AnswerOf(entries, key) == Lookup(s.(dir := dir), key);
    }
  }

  /** Every change of the directory keeps the old one as a past one. */
  lemma PastGrows(codec: Codec, s: State, e: Event)
    requires Enabled(codec, s, e)
    ensures var t, op := Apply(codec, s, e), OpOf(codec, s, e);
            t.past == if op.Lose? then [] else if op.Stay? then s.past else s.past + [s.dir]
  {
  }

  lemma NowRefines(codec: Codec, s: State, e: Event, v: View)
    requires Directories(s) && Writers(codec, s) && Enabled(codec, s, e) && Shows(s, v)
    ensures var t := Apply(codec, s, e); Answers(t, t.dir, ApplyOp(v, OpOf(codec, s, e)).now)
  {
    var t := Apply(codec, s, e);
    forall key: string
      ensures AnswerOf(ApplyOp(v, OpOf(codec, s, e)).now, key) == Lookup(t.(dir := t.dir), key)
    {
      EventAnswers(codec, s, e, key);
      OpAnswers(s, v, OpOf(codec, s, e), key);
      assert t.(dir := t.dir) == t;
    }
  }

  lemma StepRefinesView(codec: Codec, s: State, e: Event, v: View)
    requires Directories(s) && Writers(codec, s) && Enabled(codec, s, e) && Shows(s, v)
    ensures Shows(Apply(codec, s, e), ApplyOp(v, OpOf(codec, s, e)))
  {
    var t, u := Apply(codec, s, e), ApplyOp(v, OpOf(codec, s, e));
    NowRefines(codec, s, e, v);
    StepKeepsCommits(codec, s, e);
    PastGrows(codec, s, e);
    forall i | 0 <= i < |t.past|
      ensures Answers(t, t.past[i], u.past[i])
    {
      AnswersStay(s, t, t.past[i], u.past[i]);
    }
  }

  /**
    Over every run from an empty directory, with any interleaving, failures and power losses, the cache
    answers like the map its renames, unlinks and power losses make of the empty one.
   */
  lemma RunRefinesMap(codec: Codec, events: seq<Event>)
    requires Sound(codec) && Legal(codec, Empty, events)
    ensures Shows(After(codec, Empty, events), ApplyOps(codec, Empty, events, View(map[], [])))
  {
    EmptyInv(codec);
    RunRefinesView(codec, Empty, events, View(map[], []));
  }

  lemma {:induction false} RunRefinesView(codec: Codec, s: State, events: seq<Event>, v: View)
    requires Sound(codec) && Inv(codec, s) && Legal(codec, s, events) && Shows(s, v)
    ensures Shows(After(codec, s, events), ApplyOps(codec, s, events, v))
    decreases |events|
  {
    if events != [] {
      StepKeepsInv(codec, s, events[0]);
      StepRefinesView(codec, s, events[0], v);
      RunRefinesView(codec, Apply(codec, s, events[0]), events[1..], ApplyOp(v, OpOf(codec, s, events[0])));
    }
  }

  /** An event of the put w. */
  predicate OfPut(e: Event, w: nat) {
    match e
    case Begin(v, _, _, _) => v == w
    case Write(v, _) => v == w
    case StreamChunk(v, _) => v == w
    case Sync(v) => v == w
    case Rename(v) => v == w
    case Abandon(v, _) => v == w
    case _ => false
  }

  /** The event is not of the put w and replaces or removes the entry: a rename, an unlink or a power loss. */
  ghost predicate Replaces(codec: Codec, s: State, e: Event, w: nat, key: string)
    requires Enabled(codec, s, e)
  {
    !OfPut(e, w) && match OpOf(codec, s, e)
      case Put(commit) => commit.key == key
      case Remove(removed) => removed == key
      case Lose(_) => true
      case _ => false
  }

  lemma KeptOrReplaced(codec: Codec, s: State, e: Event, w: nat, key: string)
    requires Directories(s) && Writers(codec, s) && Enabled(codec, s, e) && e != Rename(w)
    ensures Lookup(Apply(codec, s, e), key) == Lookup(s, key) || Replaces(codec, s, e, w, key)
  {
    StepRefinesMap(codec, s, e, key);
  }

  ghost predicate ReplacedByOther(codec: Codec, s: State, events: seq<Event>, w: nat, key: string)
    requires Legal(codec, s, events)
    decreases |events|
  {
    events != [] &&
    (Replaces(codec, s, events[0], w, key) || ReplacedByOther(codec, Apply(codec, s, events[0]), events[1..], w, key))
  }

  /**
    A put that does not reach its rename, however it fails and whatever runs beside it, changes no entry: an
    entry that is another one afterwards was replaced by an event that is not of this put.
   */
  lemma {:induction false} FailedPutChangesNothing(codec: Codec, s: State, events: seq<Event>, w: nat, key: string)
    requires Sound(codec) && Inv(codec, s) && Legal(codec, s, events) && Rename(w) !in events
    ensures Lookup(After(codec, s, events), key) == Lookup(s, key) || ReplacedByOther(codec, s, events, w, key)
    decreases |events|
  {
    if events != [] {
      StepKeepsInv(codec, s, events[0]);
      KeptOrReplaced(codec, s, events[0], w, key);
      assert events[0] != Rename(w) && (forall e :: e in events[1..] ==> e in events);
      FailedPutChangesNothing(codec, Apply(codec, s, events[0]), events[1..], w, key);
    }
  }

  lemma {:induction false} ReaderKeepsItsEntry(codec: Codec, s: State, events: seq<Event>, r: nat)
    requires Legal(codec, s, events) && r in s.readers
    requires forall k :: 0 <= k < |events| ==> events[k] != Close(r) && !events[k].PowerLoss?
    ensures r in After(codec, s, events).readers
    ensures After(codec, s, events).readers[r].entry == s.readers[r].entry
    decreases |events|
  {
    if events != [] {
      assert events[0] != Close(r) && !events[0].PowerLoss?;
      assert forall k :: 0 <= k < |events[1..]| ==> events[1..][k] == events[k + 1];
      ReaderKeepsItsEntry(codec, Apply(codec, s, events[0]), events[1..], r);
    }
  }

  lemma {:induction false} LegalAppend(codec: Codec, s: State, events: seq<Event>, e: Event)
    requires Legal(codec, s, events) && Enabled(codec, After(codec, s, events), e)
    ensures Legal(codec, s, events + [e])
    ensures After(codec, s, events + [e]) == Apply(codec, After(codec, s, events), e)
    decreases |events|
  {
    if events == [] {
      assert events + [e] == [e];
      assert Legal(codec, Apply(codec, s, e), [e][1..]);
    } else {
      LegalAppend(codec, Apply(codec, s, events[0]), events[1..], e);
      assert (events + [e])[1..] == events[1..] + [e];
    }
  }

  /**
    A match answers the entry that was there when it opened the file, to its end, whatever is renamed over or
    deleted meanwhile; its file never shrinks under it.
   */
  lemma ReaderStreamsWhatItOpened(codec: Codec, before: seq<Event>, r: nat, key: string, later: seq<Event>)
    requires Sound(codec) && Legal(codec, Empty, before)
    requires Enabled(codec, After(codec, Empty, before), Open(r, key))
    requires Legal(codec, Apply(codec, After(codec, Empty, before), Open(r, key)), later)
    requires forall k :: 0 <= k < |later| ==> later[k] != Close(r) && !later[k].PowerLoss?
    ensures var s := After(codec, Empty, before);
            var t := After(codec, Apply(codec, s, Open(r, key)), later);
            && r in t.readers && Lookup(s, key).Some? && !t.readers[r].stage.Broken?
            && (t.readers[r].stage.Ended? ==>
                  && t.readers[r].stage.header == Lookup(s, key).value.header
                  && t.readers[r].stage.out == Lookup(s, key).value.body)
  {
    var s := After(codec, Empty, before);
    var s1 := Apply(codec, s, Open(r, key));
    LegalAppend(codec, Empty, before, Open(r, key));
    ReaderKeepsItsEntry(codec, s1, later, r);
    ReaderHasItsEntry(codec, before + [Open(r, key)], later, r);
  }

  lemma ReaderHasItsEntry(codec: Codec, before: seq<Event>, later: seq<Event>, r: nat)
    requires Sound(codec) && Legal(codec, Empty, before) && Legal(codec, After(codec, Empty, before), later)
    requires r in After(codec, After(codec, Empty, before), later).readers
    ensures var reader := After(codec, After(codec, Empty, before), later).readers[r];
            && !reader.stage.Broken?
            && (reader.stage.Ended? ==> reader.stage.header == reader.entry.header && reader.stage.out == reader.entry.body)
  {
    EmptyInv(codec);
    RunKeepsInv(codec, Empty, before);
    RunKeepsInv(codec, After(codec, Empty, before), later);
    assert GoodReader(codec, After(codec, After(codec, Empty, before), later),
                      After(codec, After(codec, Empty, before), later).readers[r]);
  }

  /** A match of a whole entry is refused exactly when its one read of the head misses the header line's end. */
  lemma RefusedIff(codec: Codec, s: State, r: nat, bytesRead: nat)
    requires Sound(codec) && Inv(codec, s) && Enabled(codec, s, ReadHead(r, bytesRead))
    ensures Apply(codec, s, ReadHead(r, bytesRead)).readers[r].stage.Refused? <==>
            bytesRead < |HeaderLine(codec, s.readers[r].entry.header)|
  {
    assert GoodReader(codec, s, s.readers[r]);
    OpenPrinted(codec, s.readers[r].entry.header, s.readers[r].entry.body, bytesRead);
  }

  /** A match in the middle of its entry: `offset` bytes of the body are read. */
  ghost predicate Streams(codec: Codec, s: State, r: nat, header: EntryHeader, body: Bytes, offset: nat) {
    && r in s.readers && s.readers[r].inode < |s.inodes| && offset <= |body|
    && s.inodes[s.readers[r].inode].data == Print(codec, header, body)
    && var line := |HeaderLine(codec, header)|;
       s.readers[r].stage == Streaming(header, line + |body|, line + offset, body[..offset])
  }

  lemma StreamsItsEntry(codec: Codec, s: State, r: nat)
    requires Inv(codec, s) && r in s.readers && s.readers[r].stage.Streaming?
    ensures var st, entry := s.readers[r].stage, s.readers[r].entry;
            st.position >= |HeaderLine(codec, entry.header)| &&
            Streams(codec, s, r, entry.header, entry.body, st.position - |HeaderLine(codec, entry.header)|)
  {
    assert GoodReader(codec, s, s.readers[r]);
    var st, entry := s.readers[r].stage, s.readers[r].entry;
    var line := HeaderLine(codec, entry.header);
    assert (line + entry.body)[|line|..st.position] == entry.body[..st.position - |line|];
  }

  /** One pull of a match that streams: at least one more byte of the body, or the end with all of it. */
  lemma OnePull(codec: Codec, s: State, r: nat, header: EntryHeader, body: Bytes, offset: nat, n: nat)
    requires Streams(codec, s, r, header, body, offset) && Enabled(codec, s, ReadBody(r, n))
    ensures var t := Apply(codec, s, ReadBody(r, n));
            if offset == |body| then r in t.readers && t.readers[r].stage == Ended(header, body)
            else 1 <= n <= 1048576 && offset + n <= |body| && Streams(codec, t, r, header, body, offset + n)
  {
    var line := HeaderLine(codec, header);
    if offset < |body| {
      assert (line + body)[|line| + offset..|line| + offset + n] == body[offset..offset + n];
      assert body[..offset] + body[offset..offset + n] == body[..offset + n];
    } else {
      assert body[..offset] == body;
    }
  }

  /**
    A match that streams can always go on: there is a pull it can make, short of the end every pull appends at
    least one byte of the entry's body, and at the end it ends the stream with the whole body.
   */
  lemma StreamingGoesOn(codec: Codec, s: State, r: nat)
    requires Inv(codec, s) && r in s.readers && s.readers[r].stage.Streaming?
    ensures var entry := s.readers[r].entry;
            exists offset: nat :: Streams(codec, s, r, entry.header, entry.body, offset)
              && Enabled(codec, s, ReadBody(r, if offset == |entry.body| then 0 else 1))
  {
    StreamsItsEntry(codec, s, r);
  }

  // ----- temporary files ----------------------------------------------------------------------

  /** Every temporary file is that of a put in progress. */
  ghost predicate NoStrays(s: State) {
    forall name: Name :: name.Temp? && name in s.dir ==> exists w: nat :: w in s.writers && s.writers[w].temp == name
  }

  lemma StepKeepsNoStrays(codec: Codec, s: State, e: Event)
    requires Enabled(codec, s, e) && NoStrays(s) && !e.PowerLoss? && !(e.Abandon? && !e.unlinked)
    ensures NoStrays(Apply(codec, s, e))
  {
    var t := Apply(codec, s, e);
    forall name: Name | name.Temp? && name in t.dir
      ensures exists w: nat :: w in t.writers && t.writers[w].temp == name
    {
      if e.Begin? && name == Temp(e.key, e.uuid) {
        assert t.writers[e.writer].temp == name;
      } else {
        var w: nat :| w in s.writers && s.writers[w].temp == name;
        assert w in t.writers && t.writers[w].temp == name;
      }
    }
  }

  /** A temporary file is left behind only by a power loss, or by a put that ends without removing it. */
  lemma {:induction false} StraysComeFromLosses(codec: Codec, s: State, events: seq<Event>)
    requires Legal(codec, s, events) && NoStrays(s)
    requires forall k :: 0 <= k < |events| ==> !events[k].PowerLoss? && !(events[k].Abandon? && !events[k].unlinked)
    ensures NoStrays(After(codec, s, events))
    decreases |events|
  {
    if events != [] {
      StepKeepsNoStrays(codec, s, events[0]);
      assert forall k :: 0 <= k < |events[1..]| ==> events[1..][k] == events[k + 1];
      StraysComeFromLosses(codec, Apply(codec, s, events[0]), events[1..]);
    }
  }

  // ----- one put from start to end ------------------------------------------------------------

  function Flatten(chunks: seq<Bytes>): Bytes {
    if chunks == [] then [] else Flatten(chunks[..|chunks| - 1]) + chunks[|chunks| - 1]
  }

  lemma NextEventRefinesMap(codec: Codec, history: seq<Event>, e: Event, key: string)
    requires Sound(codec) && Legal(codec, Empty, history) && Enabled(codec, After(codec, Empty, history), e)
    ensures var s := After(codec, Empty, history); var t := Apply(codec, s, e);
            && (!e.Rename? && !e.Unlink? && !e.PowerLoss? ==> Lookup(t, key) == Lookup(s, key))
            && (e.Rename? ==>
                  var v := s.writers[e.writer];
                  && v.temp !in t.dir
                  && Lookup(t, key) == if key == v.key then Some(Commit(key, v.header, v.body)) else Lookup(s, key))
  {
    EmptyInv(codec);
    RunKeepsInv(codec, Empty, history);
    if e.Rename? {
      assert GoodWriter(codec, After(codec, Empty, history), After(codec, Empty, history).writers[e.writer]);
    }
    StepRefinesMap(codec, After(codec, Empty, history), e, key);
  }

  class CacheDirectory {
    const codec: Codec
    var state: State
    ghost var history: seq<Event>
    /** How many calls have failed, those of the body streams included. */
    ghost var faults: nat

    /** The state is what the recorded events lead to. */
    ghost predicate Valid()
      reads this
    {
      Sound(codec) && Legal(codec, Empty, history) && state == After(codec, Empty, history)
    }

    constructor (codec: Codec)
      requires Sound(codec)
      ensures Valid() && this.codec == codec && state == Empty
    {
      this.codec, state, history, faults := codec, Empty, [], 0;
    }

    /** One file-system call. */
    method Do(e: Event)
      requires Valid() && Enabled(codec, state, e)
      modifies this`state, this`history
      ensures Valid() && state == Apply(codec, old(state), e) && history == old(history) + [e]
    {
      LegalAppend(codec, Empty, history, e);
      state := Apply(codec, state, e);
      history := history + [e];
    }

    /** Whether the next call, or the body stream, fails. */
    method Fails() returns (fails: bool)
      modifies this`faults
      ensures faults == if fails then old(faults) + 1 else old(faults)
    {
      fails := *;
      faults := if fails then faults + 1 else faults;
    }

    /** Writes what is pending, in pieces of any size; an I/O error ends it early. */
    method WritePending(w: nat) returns (ok: bool)
      requires Valid() && w in state.writers && state.writers[w].inode < |state.inodes|
      modifies this
      ensures Valid() && w in state.writers && state.writers[w].inode < |state.inodes|
      ensures state.dir == old(state.dir) && state.commits == old(state.commits)
      ensures state.writers[w] == old(state.writers[w]).(pending := state.writers[w].pending)
      ensures ok ==> state.writers[w].pending == [] && faults == old(faults)
      ensures !ok ==> faults == old(faults) + 1
    {
      while state.writers[w].pending != []
        invariant Valid() && w in state.writers && state.writers[w].inode < |state.inodes|
        invariant state.dir == old(state.dir) && state.commits == old(state.commits)
        invariant state.writers[w] == old(state.writers[w]).(pending := state.writers[w].pending)
        invariant faults == old(faults)
        decreases |state.writers[w].pending|
      {
        var fails := Fails();
        if fails {
          return false;
        }
        var n: nat :| 1 <= n <= |state.writers[w].pending|;
        Do(Write(w, n));
      }
      return true;
    }

    /** One chunk of the body stream, written in full; false if the stream or a write fails. */
    method WriteChunk(w: nat, chunk: Bytes) returns (ok: bool)
      requires Valid() && w in state.writers && state.writers[w].inode < |state.inodes|
      requires state.writers[w].pending == [] && !state.writers[w].synced
      modifies this
      ensures Valid() && w in state.writers && state.writers[w].inode < |state.inodes|
      ensures state.dir == old(state.dir) && state.commits == old(state.commits)
      ensures var v := old(state.writers[w]); var u := state.writers[w];
              u == v.(body := u.body, pending := u.pending)
      ensures ok ==> state.writers[w].pending == [] && state.writers[w].body == old(state.writers[w].body) + chunk
      ensures faults == if ok then old(faults) else old(faults) + 1
    {
      var fails := Fails();
      if fails {
        return false;
      }
      Do(StreamChunk(w, chunk));
      ok := WritePending(w);
    }

    /** The `try` block of a put up to the rename; false on any error, including a failing body stream. */
    method WriteEntry(w: nat, chunks: seq<Bytes>) returns (ok: bool)
      requires Valid() && w in state.writers && state.writers[w].inode < |state.inodes|
      requires state.writers[w].body == [] && !state.writers[w].synced
      modifies this
      ensures Valid() && w in state.writers
      ensures state.dir == old(state.dir) && state.commits == old(state.commits)
      ensures var v := old(state.writers[w]); var u := state.writers[w];
              u.key == v.key && u.temp == v.temp && u.header == v.header && u.inode == v.inode
      ensures ok ==> state.writers[w].synced && state.writers[w].body == Flatten(chunks) && faults == old(faults)
      ensures !ok ==> faults == old(faults) + 1
    {
      ok := WritePending(w);
      var n := 0;
      while ok && n < |chunks|
        invariant 0 <= n <= |chunks|
        invariant Valid() && w in state.writers && state.writers[w].inode < |state.inodes|
        invariant state.dir == old(state.dir) && state.commits == old(state.commits)
        invariant !state.writers[w].synced
        invariant var v := old(state.writers[w]); var u := state.writers[w];
                  u.key == v.key && u.temp == v.temp && u.header == v.header && u.inode == v.inode
        invariant ok ==> state.writers[w].pending == [] && state.writers[w].body == Flatten(chunks[..n])
        invariant faults == if ok then old(faults) else old(faults) + 1
      {
        assert chunks[..n + 1][..n] == chunks[..n];
        ok := WriteChunk(w, chunks[n]);
        n := n + 1;
      }
      if !ok {
        return false;
      }
      assert chunks[..n] == chunks;
      var fails := Fails();
      if fails {
        return false;
      }
      Do(Sync(w));
    }

    method BeginPut(w: nat, key: string, uuid: nat, header: EntryHeader)
      requires Valid() && Enabled(codec, state, Begin(w, key, uuid, header))
      modifies this
      ensures Valid() && w in state.writers && state.writers[w].inode < |state.inodes|
      ensures var v := state.writers[w];
              && v.key == key && v.header == header && v.body == [] && !v.synced
              && v.temp == Temp(key, uuid) && v.temp in state.dir
      ensures faults == old(faults)
      ensures forall other :: Lookup(state, other) == old(Lookup(state, other))
    {
      forall other {
        NextEventRefinesMap(codec, history, Begin(w, key, uuid, header), other);
      }
      Do(Begin(w, key, uuid, header));
    }

    /** The rename: the whole entry appears at once. */
    method CommitPut(w: nat)
      requires Valid() && Enabled(codec, state, Rename(w))
      modifies this
      ensures Valid() && w !in state.writers && old(state.writers[w].temp) !in state.dir && faults == old(faults)
      ensures forall other :: Lookup(state, other) ==
                if other == old(state.writers[w].key)
                then Some(Commit(other, old(state.writers[w].header), old(state.writers[w].body)))
                else old(Lookup(state, other))
    {
      forall other {
        NextEventRefinesMap(codec, history, Rename(w), other);
      }
      Do(Rename(w));
    }

    /** The `catch` block: the temporary file goes away, unless that fails too. */
    method AbandonPut(w: nat)
      requires Valid() && w in state.writers
      modifies this
      ensures Valid() && w !in state.writers
      ensures faults == old(faults) ==> old(state.writers[w].temp) !in state.dir
      ensures old(faults) <= faults <= old(faults) + 1
      ensures forall other :: Lookup(state, other) == old(Lookup(state, other))
    {
      var fails := Fails();
      var unlinked := !fails;
      forall other {
        NextEventRefinesMap(codec, history, Abandon(w, unlinked), other);
      }
      Do(Abandon(w, unlinked));
    }

    /**
      A put that nothing interrupts.  If no call fails, it stores header and body under the key and nothing
      else; otherwise it changes no entry, and its temporary file stays only if removing it fails as well.
      `chunks` is what the body stream yields.
     */
    method Put(w: nat, key: string, uuid: nat, header: EntryHeader, chunks: seq<Bytes>) returns (ok: bool)
      requires Valid() && Enabled(codec, state, Begin(w, key, uuid, header))
      modifies this
      ensures Valid() && w !in state.writers
      ensures ok <==> faults == old(faults)
      ensures Temp(key, uuid) in state.dir ==> faults == old(faults) + 2
      ensures forall other :: Lookup(state, other) ==
                if ok && other == key then Some(Commit(key, header, Flatten(chunks))) else old(Lookup(state, other))
    {
      var openFails := Fails();
      if openFails {
        return false;
      }
      BeginPut(w, key, uuid, header);
      ok := WriteEntry(w, chunks);
      if ok {
        var renameFails := Fails();
        ok := !renameFails;
      }
      if ok {
        CommitPut(w);
      } else {
        AbandonPut(w);
      }
    }

    /** Removes an entry and says whether there was one; `None` is an I/O error, which changes nothing. */
    method Delete(key: string) returns (found: Option<bool>)
      requires Valid()
      modifies this
      ensures Valid() && (found.Some? <==> faults == old(faults))
      ensures found.Some? ==> found.value == (Entry(key) in old(state.dir))
      ensures forall other :: Lookup(state, other) == if found.Some? && other == key then None else old(Lookup(state, other))
    {
      var fails := Fails();
      if fails {
        return None;
      }
      if Entry(key) !in state.dir {
        return Some(false);
      }
      Do(Unlink(Entry(key)));
      return Some(true);
    }
  }
}
