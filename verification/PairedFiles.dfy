/**
 The HTML/metadata pair of static_routes.rs: publishers replace two inodes under
 a per-directory lock, metadata first; readers pin HTML and then metadata, under
 the shared lock once the lock file exists and without any lock before that.

 One directory, any number of entries, publishers and readers; every step is one
 file operation, one lock operation or a death. Inodes are never edited in
 place, the lock file and metadata entries are never removed, and the digest is
 collision-free, which the constructor `DigestOf` makes literal.
 */
module PairedFiles {
  import opened Bytes
  import opened StoredForm

  type Name = string
  type Pid = nat
  type Inode = nat
  type Body = seq<Byte>

  datatype Digest = DigestOf(body: Body)
  datatype Metadata = Metadata(digest: Digest, parts: Parts)
  datatype Publication = Publication(body: Body, parts: Parts)

  /** The replaceable entries of the directory. */
  datatype Dir = Dir(html: map<Name, Inode>, metadata: map<Name, Inode>)

  /** One instant: the entries, and the names whose last publisher stopped between its renames. */
  datatype Instant = Instant(dir: Dir, torn: set<Name>)

  /**
   The directory with its history. Contents are fixed when an inode is written.
   `log` ends with the present instant; `sources` are the publications behind
   metadata inodes and `adapter` the HTML inodes that publications wrote.
   */
  datatype Disk = Disk(
    log: seq<Instant>,
    lockFile: bool,
    bodies: map<Inode, Body>,
    metadata: map<Inode, Metadata>,
    sources: map<Inode, Publication>,
    adapter: set<Inode>)

  type History = d: Disk | |d.log| > 0 witness Disk([Instant(Dir(map[], map[]), {})], false, map[], map[], map[], {})

  datatype PublisherPhase = Staged | LockOpened | Locked | MetadataRenamed | HtmlRenamed
  datatype Publisher = Publisher(name: Name, html: Inode, metadata: Inode, phase: PublisherPhase)

  datatype ReaderPhase =
    | Begun
    | Opening(locked: bool)
    /** HTML is pinned; `at` is the instant it was opened. */
    | HtmlPinned(locked: bool, html: Inode, at: nat)
    | Pinned(locked: bool, html: Inode, metadata: Option<Inode>, at: nat)
    /** A lockless read that was not a metadata-free success looks for the lock file again. */
    | Rechecking(first: Option<(Inode, Option<Inode>)>)
    /** The pair this read goes on to parse and return. */
    | Finished(locked: bool, html: Inode, metadata: Option<Inode>, at: nat)
    /** There is no such page; `at` is an instant at which the directory held no HTML of that name. */
    | Missing(at: nat)
  datatype Reader = Reader(name: Name, from: nat, phase: ReaderPhase)

  datatype State = State(
    disk: History,
    exclusive: Option<Pid>,
    shared: set<Pid>,
    publishers: map<Pid, Publisher>,
    readers: map<Pid, Reader>)

  datatype Action =
    | Stage(p: Pid, name: Name, publication: Publication, html: Inode, meta: Inode)
    | OpenLock(p: Pid)
    | LockExclusive(p: Pid)
    | RenameMetadata(p: Pid)
    | RenameHtml(p: Pid)
    | Unlock(p: Pid)
    | Die(p: Pid)                        // error, unwinding or crash; a held lock is released
    | BeginRead(r: Pid, of: Name)
    | TryLock(r: Pid)
    | PinHtml(r: Pid)
    | PinMetadata(r: Pid)
    | DropLock(r: Pid)
    | Recheck(r: Pid)
    | Abandon(r: Pid)

  function Last(d: History): nat {
    |d.log| - 1
  }

  function Now(d: History): Instant {
    d.log[Last(d)]
  }

  function Tick(d: History, next: Instant): History {
    d.(log := d.log + [next])
  }

  function Written(d: History, html: Inode, meta: Inode, publication: Publication): History {
    d.(bodies := d.bodies[html := publication.body],
       metadata := d.metadata[meta := Metadata(DigestOf(publication.body), publication.parts)],
       sources := d.sources[meta := publication],
       adapter := d.adapter + {html})
  }

  function MetadataReplaced(d: History, name: Name, meta: Inode): History {
    var now := Now(d);
    Tick(d, now.(dir := now.dir.(metadata := now.dir.metadata[name := meta])))
  }

  function HtmlReplaced(d: History, name: Name, html: Inode): History {
    var now := Now(d);
    Tick(d, Instant(now.dir.(html := now.dir.html[name := html]), now.torn - {name}))
  }

  function LeftTorn(d: History, name: Name): History {
    Tick(d, Now(d).(torn := Now(d).torn + {name}))
  }

  predicate PublisherNext(s: State, a: Action, t: State) {
    match a
    case Stage(p, name, publication, html, meta) =>
      && p !in s.publishers && html !in s.disk.bodies && meta !in s.disk.metadata
      && t == s.(disk := Written(s.disk, html, meta, publication),
                 publishers := s.publishers[p := Publisher(name, html, meta, Staged)])
    case OpenLock(p) =>
      && p in s.publishers && s.publishers[p].phase.Staged?
      && t == s.(disk := s.disk.(lockFile := true),
                 publishers := s.publishers[p := s.publishers[p].(phase := LockOpened)])
    case LockExclusive(p) =>
      && p in s.publishers && s.publishers[p].phase.LockOpened?
      && s.exclusive.None? && s.shared == {}
      && t == s.(exclusive := Some(p), publishers := s.publishers[p := s.publishers[p].(phase := Locked)])
    case RenameMetadata(p) =>
      && p in s.publishers && s.publishers[p].phase.Locked?
      && var me := s.publishers[p];
      t == s.(disk := MetadataReplaced(s.disk, me.name, me.metadata),
              publishers := s.publishers[p := me.(phase := MetadataRenamed)])
    case RenameHtml(p) =>
      && p in s.publishers && s.publishers[p].phase.MetadataRenamed?
      && var me := s.publishers[p];
      t == s.(disk := HtmlReplaced(s.disk, me.name, me.html),
              publishers := s.publishers[p := me.(phase := HtmlRenamed)])
    case Unlock(p) =>
      && p in s.publishers && s.publishers[p].phase.HtmlRenamed?
      && t == s.(exclusive := None, publishers := s.publishers - {p})
    case Die(p) =>
      && p in s.publishers
      && var me := s.publishers[p];
      t == s.(disk := if me.phase.MetadataRenamed? then LeftTorn(s.disk, me.name) else s.disk,
              exclusive := if Busy(me.phase) then None else s.exclusive,
              publishers := s.publishers - {p})
    case _ => false
  }

  /** Readers change no file: only themselves and the shared lock. */
  predicate ReaderNext(s: State, a: Action, t: State) {
    match a
    case BeginRead(r, name) =>
      && r !in s.readers
      && t == s.(readers := s.readers[r := Reader(name, Last(s.disk), Begun)])
    case TryLock(r) =>
      && r in s.readers && s.readers[r].phase.Begun?
      && (s.disk.lockFile ==> s.exclusive.None?)
      && t == s.(shared := if s.disk.lockFile then s.shared + {r} else s.shared,
                 readers := s.readers[r := s.readers[r].(phase := Opening(s.disk.lockFile))])
    case PinHtml(r) =>
      && r in s.readers && s.readers[r].phase.Opening?
      && var me := s.readers[r];
      && var locked := me.phase.locked;
      if me.name in Now(s.disk).dir.html then
        t == s.(readers := s.readers[r := me.(phase := HtmlPinned(locked, Now(s.disk).dir.html[me.name], Last(s.disk)))])
      else
        t == s.(shared := s.shared - {r},
                readers := s.readers[r := me.(phase := if locked then Missing(Last(s.disk)) else Rechecking(None))])
    case PinMetadata(r) =>
      && r in s.readers && s.readers[r].phase.HtmlPinned?
      && var me := s.readers[r];
      && var now := Now(s.disk).dir;
      && var found := if me.name in now.metadata then Some(now.metadata[me.name]) else None;
      t == s.(readers := s.readers[r := me.(phase := Pinned(me.phase.locked, me.phase.html, found, me.phase.at))])
    case DropLock(r) =>
      && r in s.readers && s.readers[r].phase.Pinned?
      && var me := s.readers[r];
      && var Pinned(locked, html, meta, at) := me.phase;
      t == s.(shared := s.shared - {r},
              readers := s.readers[r := me.(phase := if locked || meta.None? then Finished(locked, html, meta, at)
                                                      else Rechecking(Some((html, meta))))])
    case Recheck(r) =>
      && r in s.readers && s.readers[r].phase.Rechecking?
      && var me := s.readers[r];
      if s.disk.lockFile then
        && s.exclusive.None?
        && t == s.(shared := s.shared + {r}, readers := s.readers[r := me.(phase := Opening(true))])
      else
        t == s.(readers := s.readers[r := me.(phase :=
                match me.phase.first
                case Some((html, meta)) => Finished(false, html, meta, Last(s.disk))
                case None => Missing(Last(s.disk)))])
    case Abandon(r) =>
      r in s.readers && t == s.(shared := s.shared - {r}, readers := s.readers - {r})
    case _ => false
  }

  predicate Next(s: State, a: Action, t: State) {
    PublisherNext(s, a, t) || ReaderNext(s, a, t)
  }

  // ---- What the state means ----

  /** The pair a directory holds for a name. */
  predicate Holds(dir: Dir, name: Name, html: Inode, meta: Option<Inode>) {
    && name in dir.html && dir.html[name] == html
    && (if meta.Some? then name in dir.metadata && dir.metadata[name] == meta.value else name !in dir.metadata)
  }

  /** The digest check of `parse_static_snapshot`. */
  predicate Matches(d: History, html: Inode, meta: Inode) {
    html in d.bodies && meta in d.metadata && d.metadata[meta].digest == DigestOf(d.bodies[html])
  }

  predicate KnownFiles(d: History, dir: Dir) {
    && (forall n :: n in dir.html ==> dir.html[n] in d.bodies)
    && (forall n :: n in dir.metadata ==> dir.metadata[n] in d.metadata)
  }

  predicate AdapterHasMetadata(d: History, dir: Dir) {
    forall n :: n in dir.html && dir.html[n] in d.adapter ==> n in dir.metadata
  }

  /** The two entries of a name belong to different publications. */
  predicate Mismatched(d: History, dir: Dir, n: Name) {
    n in dir.html && n in dir.metadata && !Matches(d, dir.html[n], dir.metadata[n])
  }

  /** A metadata inode holds its publication's digest and parts. */
  predicate Sourced(d: History, m: Inode)
    requires m in d.metadata
  {
    m in d.sources && d.metadata[m] == Metadata(DigestOf(d.sources[m].body), d.sources[m].parts)
  }

  predicate Busy(phase: PublisherPhase) {
    phase.Locked? || phase.MetadataRenamed? || phase.HtmlRenamed?
  }

  predicate Holding(phase: ReaderPhase) {
    (phase.Opening? || phase.HtmlPinned? || phase.Pinned?) && phase.locked
  }

  // ---- The invariant ----

  ghost predicate DiskInv(d: History) {
    && (forall i :: 0 <= i < |d.log| ==> KnownFiles(d, d.log[i].dir) && AdapterHasMetadata(d, d.log[i].dir))
    && (forall i, n :: 0 <= i < |d.log| && n in d.log[i].dir.metadata ==> n in Now(d).dir.metadata)
    && (!d.lockFile ==> |d.log| == 1)
    && (forall m :: m in d.metadata ==> Sourced(d, m))
  }

  /** The name between the two renames of the publisher that holds the lock. */
  function InFlight(s: State): Option<Name> {
    if s.exclusive.Some? && s.exclusive.value in s.publishers
       && s.publishers[s.exclusive.value].phase.MetadataRenamed?
    then Some(s.publishers[s.exclusive.value].name) else None
  }

  /** A mismatched pair is explained: its last publisher stopped, or is between its renames now. */
  ghost predicate MismatchInv(d: History, inFlight: Option<Name>) {
    forall n :: Mismatched(d, Now(d).dir, n) ==> n in Now(d).torn || inFlight == Some(n)
  }

  ghost predicate LockInv(s: State) {
    && (s.exclusive.Some? ==>
          && s.shared == {} && s.disk.lockFile
          && s.exclusive.value in s.publishers && Busy(s.publishers[s.exclusive.value].phase))
    && (forall p :: p in s.publishers && Busy(s.publishers[p].phase) ==> s.exclusive == Some(p))
    && (forall p :: p in s.publishers && !s.publishers[p].phase.Staged? ==> s.disk.lockFile)
    && (forall r :: r in s.readers && Holding(s.readers[r].phase) ==> r in s.shared)
  }

  predicate PublisherInv(d: History, me: Publisher) {
    && Matches(d, me.html, me.metadata)
    && (me.phase.MetadataRenamed? || me.phase.HtmlRenamed? ==>
          me.name in Now(d).dir.metadata && Now(d).dir.metadata[me.name] == me.metadata)
    && (me.phase.HtmlRenamed? ==> me.name in Now(d).dir.html && Now(d).dir.html[me.name] == me.html)
  }

  predicate ReaderInv(d: History, me: Reader) {
    && me.from <= Last(d)
    && match me.phase
       case HtmlPinned(locked, html, at) =>
         && me.from <= at <= Last(d) && (locked ==> at == Last(d))
         && me.name in d.log[at].dir.html && d.log[at].dir.html[me.name] == html
       case Pinned(locked, html, meta, at) =>
         && me.from <= at <= Last(d) && (locked ==> at == Last(d))
         && (locked || meta.None? || |d.log| == 1 ==> Holds(d.log[at].dir, me.name, html, meta))
       case Rechecking(first) =>
         |d.log| == 1 ==>
           if first.Some? then Holds(Now(d).dir, me.name, first.value.0, first.value.1)
           else me.name !in Now(d).dir.html
       case Finished(locked, html, meta, at) =>
         && me.from <= at <= Last(d) && Holds(d.log[at].dir, me.name, html, meta)
         && (locked && Mismatched(d, d.log[at].dir, me.name) ==> me.name in d.log[at].torn)
       case Missing(at) =>
         me.from <= at <= Last(d) && me.name !in d.log[at].dir.html
       case _ => true
  }

  ghost predicate Inv(s: State) {
    && DiskInv(s.disk) && LockInv(s) && MismatchInv(s.disk, InFlight(s))
    && (forall p :: p in s.publishers ==> PublisherInv(s.disk, s.publishers[p]))
    && (forall r :: r in s.readers ==> ReaderInv(s.disk, s.readers[r]))
  }

  ghost predicate Init(s: State) {
    && |s.disk.log| == 1 && s.publishers == map[] && s.readers == map[] && s.exclusive.None? && s.shared == {}
    && DiskInv(s.disk) && MismatchInv(s.disk, None)
  }

  // ---- Preservation ----

  /** What any step does to the disk as a reader or idle publisher sees it. */
  ghost predicate Evolves(d: History, e: History) {
    && d.log <= e.log
    && (forall i :: i in d.bodies ==> i in e.bodies && e.bodies[i] == d.bodies[i])
    && (forall m :: m in d.metadata ==> m in e.metadata && e.metadata[m] == d.metadata[m])
  }

  lemma ReaderSurvives(d: History, e: History, me: Reader)
    requires DiskInv(d) && ReaderInv(d, me) && Evolves(d, e)
    requires Holding(me.phase) ==> e.log == d.log
    ensures ReaderInv(e, me)
  {
    if me.phase.Finished? {
      assert KnownFiles(d, d.log[me.phase.at].dir);
      assert e.log[me.phase.at] == d.log[me.phase.at];
    }
  }

  lemma ReadersSurvive(s: State, t: State)
    requires Inv(s) && Evolves(s.disk, t.disk) && t.readers == s.readers
    requires t.disk.log == s.disk.log || s.exclusive.Some?
    ensures forall r :: r in t.readers ==> ReaderInv(t.disk, t.readers[r])
  {
    forall r | r in t.readers ensures ReaderInv(t.disk, t.readers[r]) {
      ReaderSurvives(s.disk, t.disk, s.readers[r]);
    }
  }

  lemma TickInv(d: History, next: Instant)
    requires DiskInv(d) && d.lockFile
    requires KnownFiles(d, next.dir) && AdapterHasMetadata(d, next.dir)
    requires forall n :: n in Now(d).dir.metadata ==> n in next.dir.metadata
    ensures DiskInv(Tick(d, next)) && Evolves(d, Tick(d, next)) && Now(Tick(d, next)) == next
  {
    var e := Tick(d, next);
    forall i | 0 <= i < |e.log| ensures KnownFiles(e, e.log[i].dir) && AdapterHasMetadata(e, e.log[i].dir) {
      if i < |d.log| {
        assert KnownFiles(d, d.log[i].dir) && AdapterHasMetadata(d, d.log[i].dir);
      } else {
        assert KnownFiles(d, next.dir) && AdapterHasMetadata(d, next.dir);
      }
    }
    forall i, n | 0 <= i < |e.log| && n in e.log[i].dir.metadata ensures n in Now(e).dir.metadata {
      if i < |d.log| {
        assert n in d.log[i].dir.metadata;
      }
    }
    forall m | m in e.metadata ensures Sourced(e, m) {
      assert Sourced(d, m);
    }
  }

  lemma WrittenInv(d: History, html: Inode, meta: Inode, publication: Publication)
    requires DiskInv(d) && html !in d.bodies && meta !in d.metadata
    ensures
      var e := Written(d, html, meta, publication);
      DiskInv(e) && Evolves(d, e) && Matches(e, html, meta)
  {
    var e := Written(d, html, meta, publication);
    forall i | 0 <= i < |e.log| ensures KnownFiles(e, e.log[i].dir) && AdapterHasMetadata(e, e.log[i].dir) {
      assert KnownFiles(d, d.log[i].dir) && AdapterHasMetadata(d, d.log[i].dir);
    }
    forall m | m in e.metadata ensures Sourced(e, m) {
      if m != meta {
        assert Sourced(d, m);
      }
    }
    forall i, n | 0 <= i < |e.log| && n in e.log[i].dir.metadata ensures n in Now(e).dir.metadata {
      assert n in d.log[i].dir.metadata;
      assert Now(e) == Now(d);
    }
  }

  lemma MismatchSurvives(d: History, e: History, inFlight: Option<Name>)
    requires DiskInv(d) && MismatchInv(d, inFlight) && Evolves(d, e) && e.log == d.log
    ensures MismatchInv(e, inFlight)
  {
    forall n | Mismatched(e, Now(e).dir, n) ensures n in Now(e).torn || inFlight == Some(n) {
      assert KnownFiles(d, d.log[Last(d)].dir);
      assert Mismatched(d, Now(d).dir, n);
    }
  }

  /** Publishers see no difference while nothing is renamed. */
  lemma PublishersSurvive(d: History, e: History, publishers: map<Pid, Publisher>)
    requires (forall q :: q in publishers ==> PublisherInv(d, publishers[q])) && Evolves(d, e) && e.log == d.log
    ensures forall q :: q in publishers ==> PublisherInv(e, publishers[q])
  {
    forall q | q in publishers ensures PublisherInv(e, publishers[q]) {
      assert PublisherInv(d, publishers[q]);
    }
  }

  lemma StageLocks(s: State, p: Pid, me: Publisher, t: State)
    requires LockInv(s) && p !in s.publishers && me.phase.Staged? && t.publishers == s.publishers[p := me]
    requires t.exclusive == s.exclusive && t.shared == s.shared && t.readers == s.readers
    requires t.disk.lockFile == s.disk.lockFile
    ensures LockInv(t) && InFlight(t) == InFlight(s)
  {
  }

  lemma StageKeeps(s: State, p: Pid, name: Name, publication: Publication, html: Inode, meta: Inode, t: State)
    requires Inv(s) && PublisherNext(s, Stage(p, name, publication, html, meta), t)
    ensures Inv(t)
  {
    WrittenInv(s.disk, html, meta, publication);
    StageLocks(s, p, t.publishers[p], t);
    MismatchSurvives(s.disk, t.disk, InFlight(s));
    ReadersSurvive(s, t);
    PublishersSurvive(s.disk, t.disk, s.publishers);
  }

  lemma RenameMetadataKeeps(s: State, p: Pid, t: State)
    requires Inv(s) && PublisherNext(s, RenameMetadata(p), t)
    ensures Inv(t)
  {
    var me := s.publishers[p];
    var now := Now(s.disk);
    assert s.exclusive == Some(p);
    assert PublisherInv(s.disk, me);
    assert KnownFiles(s.disk, s.disk.log[Last(s.disk)].dir) && AdapterHasMetadata(s.disk, s.disk.log[Last(s.disk)].dir);
    TickInv(s.disk, now.(dir := now.dir.(metadata := now.dir.metadata[me.name := me.metadata])));
    ReadersSurvive(s, t);
    forall q | q in t.publishers ensures PublisherInv(t.disk, t.publishers[q]) {
      assert PublisherInv(s.disk, s.publishers[q]);
      assert q != p ==> !Busy(s.publishers[q].phase);
    }
    forall n | Mismatched(t.disk, Now(t.disk).dir, n) ensures n in Now(t.disk).torn || InFlight(t) == Some(n) {
      assert n != me.name ==> Mismatched(s.disk, now.dir, n);
    }
  }

  lemma RenameHtmlKeeps(s: State, p: Pid, t: State)
    requires Inv(s) && PublisherNext(s, RenameHtml(p), t)
    ensures Inv(t)
  {
    var me := s.publishers[p];
    var now := Now(s.disk);
    assert s.exclusive == Some(p);
    assert PublisherInv(s.disk, me);
    assert KnownFiles(s.disk, s.disk.log[Last(s.disk)].dir) && AdapterHasMetadata(s.disk, s.disk.log[Last(s.disk)].dir);
    TickInv(s.disk, Instant(now.dir.(html := now.dir.html[me.name := me.html]), now.torn - {me.name}));
    ReadersSurvive(s, t);
    forall q | q in t.publishers ensures PublisherInv(t.disk, t.publishers[q]) {
      assert PublisherInv(s.disk, s.publishers[q]);
    }
    forall n | Mismatched(t.disk, Now(t.disk).dir, n) ensures n in Now(t.disk).torn || InFlight(t) == Some(n) {
      assert n != me.name;
      assert Mismatched(s.disk, now.dir, n);
      assert InFlight(s) == Some(me.name);
    }
  }

  lemma DieKeeps(s: State, p: Pid, t: State)
    requires Inv(s) && PublisherNext(s, Die(p), t)
    ensures Inv(t)
  {
    var me := s.publishers[p];
    var now := Now(s.disk);
    if me.phase.MetadataRenamed? {
      assert s.exclusive == Some(p);
      assert KnownFiles(s.disk, s.disk.log[Last(s.disk)].dir) && AdapterHasMetadata(s.disk, s.disk.log[Last(s.disk)].dir);
      TickInv(s.disk, now.(torn := now.torn + {me.name}));
      assert InFlight(s) == Some(me.name);
    }
    ReadersSurvive(s, t);
    forall q | q in t.publishers ensures PublisherInv(t.disk, t.publishers[q]) {
      assert PublisherInv(s.disk, s.publishers[q]);
    }
    forall n | Mismatched(t.disk, Now(t.disk).dir, n) ensures n in Now(t.disk).torn || InFlight(t) == Some(n) {
      assert Mismatched(s.disk, now.dir, n);
    }
  }

  lemma LockFileInv(d: History)
    requires DiskInv(d)
    ensures DiskInv(d.(lockFile := true)) && Evolves(d, d.(lockFile := true))
  {
    var e := d.(lockFile := true);
    forall i | 0 <= i < |e.log| ensures KnownFiles(e, e.log[i].dir) && AdapterHasMetadata(e, e.log[i].dir) {
      assert KnownFiles(d, d.log[i].dir) && AdapterHasMetadata(d, d.log[i].dir);
    }
    forall m | m in e.metadata ensures Sourced(e, m) {
      assert Sourced(d, m);
    }
  }

  lemma OpenLockKeeps(s: State, p: Pid, t: State)
    requires Inv(s) && PublisherNext(s, OpenLock(p), t)
    ensures Inv(t)
  {
    LockFileInv(s.disk);
    assert InFlight(t) == InFlight(s);
    MismatchSurvives(s.disk, t.disk, InFlight(s));
    ReadersSurvive(s, t);
    forall q | q in t.publishers ensures PublisherInv(t.disk, t.publishers[q]) {
      assert PublisherInv(s.disk, s.publishers[q]);
    }
  }

  lemma PublisherLockKeeps(s: State, a: Action, t: State)
    requires Inv(s) && PublisherNext(s, a, t)
    requires a.LockExclusive? || a.Unlock?
    ensures Inv(t)
  {
    assert t.disk == s.disk && t.readers == s.readers;
    assert InFlight(s) == None && InFlight(t) == None;
    forall q | q in t.publishers ensures PublisherInv(t.disk, t.publishers[q]) {
      assert PublisherInv(s.disk, s.publishers[q]);
    }
  }

  /** The heart of the read protocol: each phase of a read keeps what that read may rely on. */
  lemma ActingReader(s: State, a: Action, t: State)
    requires Inv(s) && ReaderNext(s, a, t) && !a.Abandon?
    ensures ReaderInv(s.disk, t.readers[a.r])
  {
    if !a.BeginRead? {
      var me := s.readers[a.r];
      assert ReaderInv(s.disk, me);
      match a
      case PinMetadata(r) =>
        // Metadata that is absent now was absent when the HTML was opened.
        assert me.name in s.disk.log[me.phase.at].dir.metadata ==> me.name in Now(s.disk).dir.metadata;
      case DropLock(r) =>
        // While the shared lock is held no publisher is between its renames.
        if me.phase.locked {
          assert r in s.shared;
          assert InFlight(s) == None;
          assert Now(s.disk) == s.disk.log[me.phase.at];
          assert Mismatched(s.disk, Now(s.disk).dir, me.name) ==> me.name in Now(s.disk).torn;
        }
      case _ =>
    }
  }

  lemma ReaderLockInv(s: State, a: Action, t: State)
    requires LockInv(s) && ReaderNext(s, a, t)
    ensures LockInv(t)
    ensures t.disk == s.disk && t.publishers == s.publishers && t.exclusive == s.exclusive
    ensures forall r :: r in t.readers && r != a.r ==> r in s.readers && t.readers[r] == s.readers[r]
  {
  }

  lemma ReaderStepKeeps(s: State, a: Action, t: State)
    requires Inv(s) && ReaderNext(s, a, t)
    ensures Inv(t)
  {
    ReaderLockInv(s, a, t);
    assert InFlight(t) == InFlight(s);
    forall r | r in t.readers ensures ReaderInv(t.disk, t.readers[r]) {
      if !a.Abandon? && r == a.r {
        ActingReader(s, a, t);
      }
    }
  }

  lemma StepKeepsInv(s: State, a: Action, t: State)
    requires Inv(s) && Next(s, a, t)
    ensures Inv(t)
  {
    if ReaderNext(s, a, t) {
      ReaderStepKeeps(s, a, t);
    } else {
      match a
      case Stage(p, name, publication, html, meta) => StageKeeps(s, p, name, publication, html, meta, t);
      case RenameMetadata(p) => RenameMetadataKeeps(s, p, t);
      case RenameHtml(p) => RenameHtmlKeeps(s, p, t);
      case Die(p) => DieKeeps(s, p, t);
      case OpenLock(p) => OpenLockKeeps(s, p, t);
      case _ => PublisherLockKeeps(s, a, t);
    }
  }

  // ---- Whole runs ----

  predicate Trace(states: seq<State>, actions: seq<Action>) {
    && |states| == |actions| + 1
    && forall i {:trigger actions[i]} :: 0 <= i < |actions| ==> Next(states[i], actions[i], states[i + 1])
  }

  ghost predicate Run(states: seq<State>, actions: seq<Action>) {
    Trace(states, actions) && Init(states[0])
  }

  lemma InitInv(s: State)
    requires Init(s)
    ensures Inv(s)
  {
  }

  lemma {:induction false} RunInv(states: seq<State>, actions: seq<Action>, i: nat)
    requires Run(states, actions) && i < |states|
    ensures Inv(states[i])
  {
    if i == 0 {
      InitInv(states[0]);
    } else {
      RunInv(states, actions, i - 1);
      StepKeepsInv(states[i - 1], actions[i - 1], states[i]);
    }
  }

  lemma LogGrows(s: State, a: Action, t: State)
    requires Next(s, a, t)
    ensures t.disk.log == s.disk.log || t.disk.log == s.disk.log + [Now(t.disk)]
  {
  }

  lemma {:induction false} LogPrefix(states: seq<State>, actions: seq<Action>, i: nat, j: nat)
    requires Trace(states, actions) && i <= j < |states|
    ensures states[i].disk.log <= states[j].disk.log
  {
    if i < j {
      LogPrefix(states, actions, i, j - 1);
      LogGrows(states[j - 1], actions[j - 1], states[j]);
    }
  }

  /** A step adds at most one instant to the log. */
  lemma LogStep(states: seq<State>, actions: seq<Action>, i: nat)
    requires Trace(states, actions) && i < |actions|
    ensures states[i].disk.log <= states[i + 1].disk.log && |states[i + 1].disk.log| <= |states[i].disk.log| + 1
  {
    LogGrows(states[i], actions[i], states[i + 1]);
  }

  /** Every logged instant since state `b` was the present of some state since `b`. */
  lemma {:induction false} LoggedInstant(states: seq<State>, actions: seq<Action>, b: nat, e: nat, at: nat)
    returns (k: nat)
    requires Trace(states, actions) && b <= e < |states|
    requires Last(states[b].disk) <= at <= Last(states[e].disk)
    ensures b <= k <= e && Now(states[k].disk) == states[e].disk.log[at]
  {
    if e == b || at == Last(states[e].disk) {
      k := e;
    } else {
      LogStep(states, actions, e - 1);
      LogPrefix(states, actions, b, e - 1);
      k := LoggedInstant(states, actions, b, e - 1, at);
      assert states[e].disk.log[at] == states[e - 1].disk.log[at];
    }
  }

  lemma ReaderPersists(s: State, a: Action, t: State, r: Pid)
    requires Next(s, a, t) && r in s.readers && a != Abandon(r)
    ensures r in t.readers && t.readers[r].from == s.readers[r].from && t.readers[r].name == s.readers[r].name
  {
  }

  lemma {:induction false} ReadBegan(states: seq<State>, actions: seq<Action>, b: nat, e: nat, r: Pid)
    requires Trace(states, actions) && b < e < |states|
    requires actions[b].BeginRead? && actions[b].r == r
    requires forall i :: b < i < e ==> actions[i] != Abandon(r)
    ensures r in states[e].readers && states[e].readers[r].from == Last(states[b + 1].disk)
    ensures states[e].readers[r].name == actions[b].of
  {
    if b + 1 < e {
      ReadBegan(states, actions, b, e - 1, r);
      ReaderPersists(states[e - 1], actions[e - 1], states[e], r);
    } else {
      assert Next(states[b], actions[b], states[b + 1]);
    }
  }

  /**
   Every pair a read goes on to return was the directory's actual pair at one
   single instant during that read.
   */
  lemma PairsAreSnapshots(states: seq<State>, actions: seq<Action>, b: nat, e: nat, r: Pid) returns (k: nat)
    requires Run(states, actions) && b < e < |states|
    requires actions[b].BeginRead? && actions[b].r == r
    requires forall i :: b < i < e ==> actions[i] != Abandon(r)
    requires r in states[e].readers && states[e].readers[r].phase.Finished?
    ensures b < k <= e
    ensures
      var me := states[e].readers[r];
      Holds(Now(states[k].disk).dir, actions[b].of, me.phase.html, me.phase.metadata)
  {
    ReadBegan(states, actions, b, e, r);
    RunInv(states, actions, e);
    assert ReaderInv(states[e].disk, states[e].readers[r]);
    k := LoggedInstant(states, actions, b + 1, e, states[e].readers[r].phase.at);
  }

  /**
   A read reports a page missing only if the directory held no HTML of that name at
   some instant during that read.
   */
  lemma MissingWasMissing(states: seq<State>, actions: seq<Action>, b: nat, e: nat, r: Pid) returns (k: nat)
    requires Run(states, actions) && b < e < |states|
    requires actions[b].BeginRead? && actions[b].r == r
    requires forall i :: b < i < e ==> actions[i] != Abandon(r)
    requires r in states[e].readers && states[e].readers[r].phase.Missing?
    ensures b < k <= e && actions[b].of !in Now(states[k].disk).dir.html
  {
    ReadBegan(states, actions, b, e, r);
    RunInv(states, actions, e);
    assert ReaderInv(states[e].disk, states[e].readers[r]);
    k := LoggedInstant(states, actions, b + 1, e, states[e].readers[r].phase.at);
  }

  /**
   A read that passes the digest check returns exactly the body of the
   publication whose status and headers it returns.
   */
  lemma BodyMatchesParts(states: seq<State>, actions: seq<Action>, i: nat, r: Pid)
    requires Run(states, actions) && i < |states|
    requires r in states[i].readers && states[i].readers[r].phase.Finished?
    requires states[i].readers[r].phase.metadata.Some?
    requires Matches(states[i].disk, states[i].readers[r].phase.html, states[i].readers[r].phase.metadata.value)
    ensures
      var d := states[i].disk;
      var Finished(_, html, Some(meta), _) := states[i].readers[r].phase;
      && meta in d.sources
      && d.bodies[html] == d.sources[meta].body
      && d.metadata[meta].parts == d.sources[meta].parts
  {
    RunInv(states, actions, i);
    assert Sourced(states[i].disk, states[i].readers[r].phase.metadata.value);
  }

  /** A read that returns no metadata pinned HTML that no adapter publication wrote. */
  lemma NoMetadataMeansLegacy(states: seq<State>, actions: seq<Action>, i: nat, r: Pid)
    requires Run(states, actions) && i < |states|
    requires r in states[i].readers && states[i].readers[r].phase.Finished?
    requires states[i].readers[r].phase.metadata.None?
    ensures states[i].readers[r].phase.html !in states[i].disk.adapter
  {
    RunInv(states, actions, i);
    var me := states[i].readers[r];
    assert ReaderInv(states[i].disk, me);
    assert AdapterHasMetadata(states[i].disk, states[i].disk.log[me.phase.at].dir);
  }

  /**
   A locked read fails the digest check only if, at the instant it pinned, the
   entry's last publisher had stopped between its two renames.
   */
  lemma LockedMismatchMeansTorn(states: seq<State>, actions: seq<Action>, i: nat, r: Pid)
    requires Run(states, actions) && i < |states|
    requires r in states[i].readers && states[i].readers[r].phase.Finished?
    requires states[i].readers[r].phase.locked && states[i].readers[r].phase.metadata.Some?
    requires !Matches(states[i].disk, states[i].readers[r].phase.html, states[i].readers[r].phase.metadata.value)
    ensures
      var me := states[i].readers[r];
      me.phase.at < |states[i].disk.log| && me.name in states[i].disk.log[me.phase.at].torn
  {
    RunInv(states, actions, i);
    var me := states[i].readers[r];
    assert ReaderInv(states[i].disk, me);
    assert Mismatched(states[i].disk, states[i].disk.log[me.phase.at].dir, me.name);
  }

  // ---- What a publication does ----

  /** A step replaces entries of at most one name, that of the publisher renaming. */
  lemma StepTouchesOneName(s: State, a: Action, t: State, n: Name)
    requires Next(s, a, t)
    requires !((a.RenameMetadata? || a.RenameHtml?) && a.p in s.publishers && s.publishers[a.p].name == n)
    ensures n in Now(t.disk).dir.html <==> n in Now(s.disk).dir.html
    ensures n in Now(t.disk).dir.html ==> Now(t.disk).dir.html[n] == Now(s.disk).dir.html[n]
    ensures n in Now(t.disk).dir.metadata <==> n in Now(s.disk).dir.metadata
    ensures n in Now(t.disk).dir.metadata ==> Now(t.disk).dir.metadata[n] == Now(s.disk).dir.metadata[n]
  {
    if ReaderNext(s, a, t) {
      ReadersChangeNothing(s, a, t);
    } else if !a.RenameMetadata? && !a.RenameHtml? {
      OnlyRenamesReplace(s, a, t);
    }
  }

  lemma ReadersChangeNothing(s: State, a: Action, t: State)
    requires ReaderNext(s, a, t)
    ensures t.disk == s.disk
  {
  }

  lemma OnlyRenamesReplace(s: State, a: Action, t: State)
    requires PublisherNext(s, a, t) && !a.RenameMetadata? && !a.RenameHtml?
    ensures Now(t.disk).dir == Now(s.disk).dir
  {
  }

  /** What a publisher wrote stays written. */
  predicate Carrying(d: History, me: Publisher, publication: Publication) {
    && me.html in d.bodies && d.bodies[me.html] == publication.body
    && me.metadata in d.metadata
    && d.metadata[me.metadata] == Metadata(DigestOf(publication.body), publication.parts)
  }

  lemma PublisherPersists(s: State, a: Action, t: State, p: Pid, publication: Publication)
    requires Next(s, a, t) && p in s.publishers && a != Unlock(p) && a != Die(p)
    requires Carrying(s.disk, s.publishers[p], publication)
    ensures p in t.publishers && t.publishers[p].(phase := Staged) == s.publishers[p].(phase := Staged)
    ensures Carrying(t.disk, t.publishers[p], publication)
  {
  }

  lemma {:induction false} PublisherStands(states: seq<State>, actions: seq<Action>, b: nat, e: nat)
    requires Trace(states, actions) && b < e < |states| && actions[b].Stage?
    requires forall i :: b < i < e ==> actions[i] != Unlock(actions[b].p) && actions[i] != Die(actions[b].p)
    ensures
      var Stage(p, name, publication, html, meta) := actions[b];
      && p in states[e].publishers
      && states[e].publishers[p].(phase := Staged) == Publisher(name, html, meta, Staged)
      && Carrying(states[e].disk, states[e].publishers[p], publication)
    decreases e
  {
    if e == b + 1 {
      assert Next(states[b], actions[b], states[e]);
    } else {
      PublisherStands(states, actions, b, e - 1);
      PublisherPersists(states[e - 1], actions[e - 1], states[e], actions[b].p, actions[b].publication);
    }
  }

  /** A publication that comes to its end has put its own pair in place, body and parts. */
  lemma PublicationTakesEffect(states: seq<State>, actions: seq<Action>, b: nat, e: nat)
    requires Run(states, actions) && b < e < |actions|
    requires actions[b].Stage? && actions[e] == Unlock(actions[b].p)
    requires forall i :: b < i < e ==> actions[i] != Unlock(actions[b].p) && actions[i] != Die(actions[b].p)
    ensures
      var Stage(p, name, publication, html, meta) := actions[b];
      var d := states[e].disk;
      && Holds(Now(d).dir, name, html, Some(meta))
      && html in d.bodies && d.bodies[html] == publication.body
      && meta in d.metadata && d.metadata[meta] == Metadata(DigestOf(publication.body), publication.parts)
  {
    PublisherStands(states, actions, b, e);
    RunInv(states, actions, e);
    assert Next(states[e], actions[e], states[e + 1]);
    assert PublisherInv(states[e].disk, states[e].publishers[actions[b].p]);
  }

  // ---- The bytes behind the check ----

  /** The metadata file's bytes. */
  function StoredBytes(c: Codec, m: Metadata): Content {
    MetadataOf(c, m.digest.body, m.parts)
  }

  /** The check on the bytes of the two files is the comparison of their publications. */
  lemma ParsesIffMatches(c: Codec, d: History, html: Inode, meta: Inode)
    requires Reliable(c) && html in d.bodies && meta in d.metadata
    ensures
      var answer := Parse(c, d.bodies[html], StoredBytes(c, d.metadata[meta]));
      answer == if !Matches(d, html, meta) then Err(Inconsistent)
                else if Presentable(c, d.metadata[meta].parts) then Ok(d.metadata[meta].parts)
                else Err(InvalidPart)
  {
    ParsePublished(c, d.bodies[html], d.metadata[meta].digest.body, d.metadata[meta].parts);
  }

  /**
   What a read with metadata answers, from the bytes of the two files it pinned: the
   parts of the publication behind the metadata if the HTML is that publication's body,
   and a refusal otherwise. A locked read is refused so only over a stopped publisher.
   */
  lemma ReadAnswers(c: Codec, states: seq<State>, actions: seq<Action>, i: nat, r: Pid)
    requires Reliable(c) && Run(states, actions) && i < |states|
    requires r in states[i].readers && states[i].readers[r].phase.Finished?
    requires states[i].readers[r].phase.metadata.Some?
    ensures
      var d := states[i].disk;
      var Finished(locked, html, Some(meta), at) := states[i].readers[r].phase;
      && html in d.bodies && meta in d.metadata && meta in d.sources && at < |d.log|
      && var source := d.sources[meta];
      var answer := Parse(c, d.bodies[html], StoredBytes(c, d.metadata[meta]));
      && (answer == if d.bodies[html] != source.body then Err(Inconsistent)
                    else if Presentable(c, source.parts) then Ok(source.parts)
                    else Err(InvalidPart))
      && (locked && answer == Err(Inconsistent) ==> states[i].readers[r].name in d.log[at].torn)
  {
    RunInv(states, actions, i);
    var me := states[i].readers[r];
    var d := states[i].disk;
    assert ReaderInv(d, me);
    assert KnownFiles(d, d.log[me.phase.at].dir);
    assert Sourced(d, me.phase.metadata.value);
    ParsesIffMatches(c, d, me.phase.html, me.phase.metadata.value);
    if me.phase.locked && !Matches(d, me.phase.html, me.phase.metadata.value) {
      LockedMismatchMeansTorn(states, actions, i, r);
    }
  }

  // ---- A read ends ----

  /** How many steps of its own a read has left at most. */
  function StepsLeft(phase: ReaderPhase): nat {
    match phase
    case Begun => 8
    case Opening(locked) => if locked then 3 else 7
    case HtmlPinned(locked, _, _) => if locked then 2 else 6
    case Pinned(locked, _, _, _) => if locked then 1 else 5
    case Rechecking(_) => 4
    case Finished(_, _, _, _) => 0
    case Missing(_) => 0
  }

  /** Every step of a read brings it nearer to its end, and there are at most eight. */
  lemma ReadEnds(s: State, a: Action, t: State)
    requires ReaderNext(s, a, t) && !a.Abandon?
    ensures a.BeginRead? ==> a.r in t.readers && StepsLeft(t.readers[a.r].phase) == 8
    ensures !a.BeginRead? ==>
      && a.r in s.readers && a.r in t.readers
      && StepsLeft(t.readers[a.r].phase) < StepsLeft(s.readers[a.r].phase)
  {
  }

  /** An unfinished read can go on, or the publisher whose lock it waits for can. */
  lemma ReadGoesOn(s: State, r: Pid) returns (a: Action, t: State)
    requires Inv(s) && r in s.readers && StepsLeft(s.readers[r].phase) > 0
    ensures Next(s, a, t)
    ensures || (ReaderNext(s, a, t) && !a.Abandon? && !a.BeginRead? && a.r == r)
            || ((a.RenameMetadata? || a.RenameHtml? || a.Unlock?) && s.exclusive == Some(a.p))
  {
    var me := s.readers[r];
    match me.phase
    case Begun =>
      if s.exclusive.Some? {
        a, t := HolderGoesOn(s);
      } else {
        a := TryLock(r);
        t := s.(shared := if s.disk.lockFile then s.shared + {r} else s.shared,
                readers := s.readers[r := me.(phase := Opening(s.disk.lockFile))]);
      }
    case Opening(locked) =>
      a := PinHtml(r);
      if me.name in Now(s.disk).dir.html {
        t := s.(readers := s.readers[r := me.(phase := HtmlPinned(locked, Now(s.disk).dir.html[me.name], Last(s.disk)))]);
      } else {
        t := s.(shared := s.shared - {r},
                readers := s.readers[r := me.(phase := if locked then Missing(Last(s.disk)) else Rechecking(None))]);
      }
    case HtmlPinned(locked, html, at) =>
      a := PinMetadata(r);
      var now := Now(s.disk).dir;
      var found := if me.name in now.metadata then Some(now.metadata[me.name]) else None;
      t := s.(readers := s.readers[r := me.(phase := Pinned(locked, html, found, at))]);
    case Pinned(locked, html, meta, at) =>
      a := DropLock(r);
      t := s.(shared := s.shared - {r},
              readers := s.readers[r := me.(phase := if locked || meta.None? then Finished(locked, html, meta, at)
                                                      else Rechecking(Some((html, meta))))]);
    case Rechecking(first) =>
      if s.exclusive.Some? {
        a, t := HolderGoesOn(s);
      } else if s.disk.lockFile {
        a := Recheck(r);
        t := s.(shared := s.shared + {r}, readers := s.readers[r := me.(phase := Opening(true))]);
      } else {
        a := Recheck(r);
        t := s.(readers := s.readers[r := me.(phase := match first
                                              case Some((html, meta)) => Finished(false, html, meta, Last(s.disk))
                                              case None => Missing(Last(s.disk)))]);
      }
  }

  /** Whoever holds the lock has its next rename, or the release, to do. */
  lemma HolderGoesOn(s: State) returns (a: Action, t: State)
    requires LockInv(s) && s.exclusive.Some?
    ensures PublisherNext(s, a, t) && (a.RenameMetadata? || a.RenameHtml? || a.Unlock?) && s.exclusive == Some(a.p)
  {
    var p := s.exclusive.value;
    var me := s.publishers[p];
    match me.phase
    case Locked =>
      a := RenameMetadata(p);
      t := s.(disk := MetadataReplaced(s.disk, me.name, me.metadata), publishers := s.publishers[p := me.(phase := MetadataRenamed)]);
    case MetadataRenamed =>
      a := RenameHtml(p);
      t := s.(disk := HtmlReplaced(s.disk, me.name, me.html), publishers := s.publishers[p := me.(phase := HtmlRenamed)]);
    case HtmlRenamed =>
      a := Unlock(p);
      t := s.(exclusive := None, publishers := s.publishers - {p});
  }
}
