/**
 The process-local memory of verified HTML/metadata pairs: a hit on unchanged
 file identities reuses the parsed parts instead of hashing and parsing again.

 Files may be created, replaced, edited in place, touched and unlinked at any time,
 also in the middle of a read, and inode numbers may be reused once nobody holds
 the file open. The one assumption is that every such change carries a change time
 of its own, later than all earlier ones.
 */
module VerifiedCache {
  import opened Bytes
  import opened StoredForm

  type Path = string

  datatype Identity = Identity(device: nat, inode: nat, length: nat, changed: nat, modified: nat)

  datatype Entry = Entry(html: Identity, metadata: Identity, parts: Parts)

  const CAPACITY: nat := 4096

  function Lookup(entries: map<Path, Entry>, path: Path, html: Identity, metadata: Identity): Option<Parts> {
    if path in entries && entries[path].html == html && entries[path].metadata == metadata
    then Some(entries[path].parts) else None
  }

  /** A full map is emptied before an unknown path is added. */
  function Remember(entries: map<Path, Entry>, path: Path, entry: Entry): map<Path, Entry> {
    (if |entries| >= CAPACITY && path !in entries then map[] else entries)[path := entry]
  }

  /** An opened file as one read sees it. */
  datatype Opened = Opened(identity: Identity, content: Content)

  /** The cached check: its result and the memory it leaves. */
  function CachedParse(c: Codec, entries: map<Path, Entry>, path: Path, html: Opened, metadata: Opened)
    : (Result<Parts, ParseError>, map<Path, Entry>)
  {
    match Lookup(entries, path, html.identity, metadata.identity)
    case Some(parts) => (Ok(parts), entries)
    case None =>
      match Parse(c, html.content, metadata.content)
      case Err(error) => (Err(error), entries)
      case Ok(parts) => (Ok(parts), Remember(entries, path, Entry(html.identity, metadata.identity, parts)))
  }

  class Verified {
    var entries: map<Path, Entry>

    constructor ()
      ensures entries == map[]
    {
      entries := map[];
    }

    method RememberPair(path: Path, entry: Entry)
      modifies this
      ensures entries == Remember(old(entries), path, entry)
      ensures |old(entries)| <= CAPACITY ==> |entries| <= CAPACITY
    {
      RememberBound(entries, path, entry);
      if |entries| >= CAPACITY && path !in entries {
        entries := map[];
      }
      entries := entries[path := entry];
    }

    /** One read of a pair; without metadata there is nothing to check. */
    method ParseSnapshot(c: Codec, path: Path, html: Opened, metadata: Option<Opened>)
      returns (r: Result<Option<Parts>, ParseError>)
      modifies this
      ensures metadata.None? ==> r == Ok(None) && entries == old(entries)
      ensures metadata.Some? ==>
        && var (result, after) := CachedParse(c, old(entries), path, html, metadata.value);
        && entries == after
        && r == match result case Ok(parts) => Ok(Some(parts)) case Err(error) => Err(error)
    {
      if metadata.None? {
        return Ok(None);
      }
      var known := Lookup(entries, path, html.identity, metadata.value.identity);
      if known.Some? {
        return Ok(Some(known.value));
      }
      var parts :- Parse(c, html.content, metadata.value.content);
      RememberPair(path, Entry(html.identity, metadata.value.identity, parts));
      r := Ok(Some(parts));
    }
  }

  lemma RememberBound(entries: map<Path, Entry>, path: Path, entry: Entry)
    ensures |entries| <= CAPACITY ==> |Remember(entries, path, entry)| <= CAPACITY
  {
    var base := if |entries| >= CAPACITY && path !in entries then map[] else entries;
    assert Remember(entries, path, entry).Keys == base.Keys + {path};
    if path in entries {
      assert base.Keys + {path} == base.Keys;
    }
  }

  /**
   What is remembered is found again, for exactly its two identities; every other path is
   as before, unless the memory was full and had to be emptied for a new path.
   */
  lemma RememberMeaning(entries: map<Path, Entry>, path: Path, entry: Entry, other: Path, html: Identity, metadata: Identity)
    ensures
      var found := Lookup(Remember(entries, path, entry), other, html, metadata);
      found == if other == path then (if html == entry.html && metadata == entry.metadata then Some(entry.parts) else None)
               else if |entries| < CAPACITY || path in entries then Lookup(entries, other, html, metadata)
               else None
  {
  }

  /** A second read of unchanged files needs neither the digest nor the parser: whatever the bytes, it answers as the first. */
  lemma SecondReadIsRemembered(
    c: Codec, entries: map<Path, Entry>, path: Path, html: Opened, metadata: Opened, later: Opened, laterMetadata: Opened)
    requires CachedParse(c, entries, path, html, metadata).0.Ok?
    requires later.identity == html.identity && laterMetadata.identity == metadata.identity
    ensures
      var (first, remembered) := CachedParse(c, entries, path, html, metadata);
      CachedParse(c, remembered, path, later, laterMetadata) == (first, remembered)
  {
  }

  // ---- Histories of reads and file changes ----

  type FileKey = (nat, nat)   // device and inode number
  type Rid = nat

  datatype FileState = FileState(content: Content, changed: nat, modified: nat)

  /** A read in progress: identities first, then the lookup, then on a miss the bytes. */
  datatype Phase =
    | Beginning
    | SawHtml(html: Identity)
    | SawBoth(html: Identity, metadata: Identity)
    | Missed(html: Identity, metadata: Identity)
    | HasMetadata(html: Identity, metadata: Identity, metadataBytes: Content)
    | HasBoth(html: Identity, metadata: Identity, metadataBytes: Content, htmlBytes: Content)
    | Finished(result: Result<Parts, ParseError>)

  /** A reader with its two open files, and every content each has had since the read began. */
  datatype Reader = Reader(
    path: Path, html: FileKey, metadata: FileKey, phase: Phase, htmlHad: set<Content>, metadataHad: set<Content>)

  /** Bytes that were read by somebody who had seen this identity before. */
  datatype Claim = Claim(id: Identity, content: Content)

  datatype Origin = Origin(html: Content, metadata: Content)

  datatype World = World(
    clock: nat,
    files: map<FileKey, FileState>,
    entries: map<Path, Entry>,
    readers: map<Rid, Reader>,
    // History: every identity a file ever had, what was read under which
    // identity, and the bytes behind every remembered pair.
    seen: set<Identity>,
    claims: set<Claim>,
    origins: map<Path, Origin>)

  datatype Action =
    | Create(key: FileKey, content: Content)
    | Edit(key: FileKey, content: Content, modified: nat)  // in place; `modified` can be set freely
    | Free(key: FileKey)                                   // the last name and the last descriptor are gone
    | Begin(r: Rid, path: Path, html: FileKey, metadata: FileKey)
    | SeeHtml(r: Rid)
    | SeeMetadata(r: Rid)
    | LookUp(r: Rid)
    | ReadMetadata(r: Rid)
    | ReadHtml(r: Rid)
    | Conclude(r: Rid)
    | Leave(r: Rid)

  function IdentityOf(key: FileKey, f: FileState): Identity {
    Identity(key.0, key.1, |f.content|, f.changed, f.modified)
  }

  function KeyOf(id: Identity): FileKey {
    (id.device, id.inode)
  }

  /** A reader's record of one file's contents grows with every change to that file. */
  function Noting(reader: Reader, key: FileKey, content: Content): Reader {
    reader.(htmlHad := if reader.html == key then reader.htmlHad + {content} else reader.htmlHad,
            metadataHad := if reader.metadata == key then reader.metadataHad + {content} else reader.metadataHad)
  }

  /** A change stamped with the present time, which then moves on. */
  function Stamp(w: World, key: FileKey, content: Content, modified: nat): World {
    var f := FileState(content, w.clock, modified);
    w.(clock := w.clock + 1, files := w.files[key := f], seen := w.seen + {IdentityOf(key, f)},
       readers := map r | r in w.readers :: Noting(w.readers[r], key, content))
  }

  function Put(w: World, r: Rid, me: Reader): World {
    w.(readers := w.readers[r := me])
  }

  predicate FileNext(w: World, a: Action, v: World) {
    match a
    case Create(key, content) => key !in w.files && v == Stamp(w, key, content, w.clock)
    case Edit(key, content, modified) => key in w.files && v == Stamp(w, key, content, modified)
    case Free(key) =>
      && key in w.files
      && (forall r :: r in w.readers ==> w.readers[r].html != key && w.readers[r].metadata != key)
      && v == w.(files := w.files - {key})
    case _ => false
  }

  predicate ReadNext(c: Codec, w: World, r: Rid, a: Action, v: World)
    requires r in w.readers
  {
    var me := w.readers[r];
    && me.html in w.files && me.metadata in w.files
    && match a
       case SeeHtml(_) =>
         && me.phase.Beginning?
         && v == Put(w, r, me.(phase := SawHtml(IdentityOf(me.html, w.files[me.html]))))
       case SeeMetadata(_) =>
         && me.phase.SawHtml?
         && v == Put(w, r, me.(phase := SawBoth(me.phase.html, IdentityOf(me.metadata, w.files[me.metadata]))))
       case LookUp(_) =>
         && me.phase.SawBoth?
         && var known := Lookup(w.entries, me.path, me.phase.html, me.phase.metadata);
         v == Put(w, r, me.(phase := if known.Some? then Finished(Ok(known.value))
                                     else Missed(me.phase.html, me.phase.metadata)))
       case ReadMetadata(_) =>
         && me.phase.Missed?
         && var bytes := w.files[me.metadata].content;
         v == Put(w, r, me.(phase := HasMetadata(me.phase.html, me.phase.metadata, bytes)))
              .(claims := w.claims + {Claim(me.phase.metadata, bytes)})
       case ReadHtml(_) =>
         && me.phase.HasMetadata?
         && var bytes := w.files[me.html].content;
         v == Put(w, r, me.(phase := HasBoth(me.phase.html, me.phase.metadata, me.phase.metadataBytes, bytes)))
              .(claims := w.claims + {Claim(me.phase.html, bytes)})
       case Conclude(_) =>
         && me.phase.HasBoth?
         && var result := Parse(c, me.phase.htmlBytes, me.phase.metadataBytes);
         var done := Put(w, r, me.(phase := Finished(result)));
         v == if result.Err? then done
              else
                var entry := Entry(me.phase.html, me.phase.metadata, result.value);
                var origin := Origin(me.phase.htmlBytes, me.phase.metadataBytes);
                done.(entries := Remember(w.entries, me.path, entry),
                      origins := (if |w.entries| >= CAPACITY && me.path !in w.entries then map[] else w.origins)
                                 [me.path := origin])
       case _ => false
  }

  predicate IsFile(a: Action) {
    a.Create? || a.Edit? || a.Free?
  }

  predicate BeginNext(w: World, a: Action, v: World)
    requires a.Begin?
  {
    && a.r !in w.readers && a.html in w.files && a.metadata in w.files
    && v == Put(w, a.r, Reader(a.path, a.html, a.metadata, Beginning,
                               {w.files[a.html].content}, {w.files[a.metadata].content}))
  }

  predicate Next(c: Codec, w: World, a: Action, v: World) {
    if IsFile(a) then FileNext(w, a, v)
    else if a.Begin? then BeginNext(w, a, v)
    else if a.Leave? then a.r in w.readers && v == w.(readers := w.readers - {a.r})
    else a.r in w.readers && ReadNext(c, w, a.r, a, v)
  }

  predicate Init(w: World) {
    && w.files == map[] && w.entries == map[] && w.readers == map[]
    && w.seen == {} && w.claims == {} && w.origins == map[]
  }

  // ---- The invariant ----

  predicate ClockInv(clock: nat, files: map<FileKey, FileState>, seen: set<Identity>) {
    && (forall id :: id in seen ==> id.changed < clock)
    && (forall key :: key in files ==> IdentityOf(key, files[key]) in seen)
  }

  /** The identities a reader has taken, of its HTML and of its metadata. */
  predicate TookHtml(p: Phase, id: Identity) {
    !p.Beginning? && !p.Finished? && p.html == id
  }

  predicate TookMetadata(p: Phase, id: Identity) {
    !p.Beginning? && !p.Finished? && !p.SawHtml? && p.metadata == id
  }

  /** An answer is what parsing gives for contents the two files had during the read. */
  ghost predicate Answered(c: Codec, reader: Reader, result: Result<Parts, ParseError>) {
    exists h, m :: h in reader.htmlHad && m in reader.metadataHad && result == Parse(c, h, m)
  }

  ghost predicate ReaderInv(c: Codec, files: map<FileKey, FileState>, seen: set<Identity>, claims: set<Claim>, me: Reader) {
    && me.html in files && files[me.html].content in me.htmlHad
    && me.metadata in files && files[me.metadata].content in me.metadataHad
    && (forall id :: TookHtml(me.phase, id) ==> id in seen && KeyOf(id) == me.html)
    && (forall id :: TookMetadata(me.phase, id) ==> id in seen && KeyOf(id) == me.metadata)
    && (me.phase.HasMetadata? || me.phase.HasBoth? ==>
          me.phase.metadataBytes in me.metadataHad && Claim(me.phase.metadata, me.phase.metadataBytes) in claims)
    && (me.phase.HasBoth? ==>
          me.phase.htmlBytes in me.htmlHad && Claim(me.phase.html, me.phase.htmlBytes) in claims)
    && (me.phase.Finished? ==> Answered(c, me, me.phase.result))
  }

  /** A claim is still true of a file that has not changed since, and was true during every read that saw its identity. */
  predicate Upheld(files: map<FileKey, FileState>, claim: Claim) {
    KeyOf(claim.id) in files && IdentityOf(KeyOf(claim.id), files[KeyOf(claim.id)]) == claim.id ==>
      files[KeyOf(claim.id)].content == claim.content
  }

  predicate Witnessed(me: Reader, claim: Claim) {
    && (TookHtml(me.phase, claim.id) ==> claim.content in me.htmlHad)
    && (TookMetadata(me.phase, claim.id) ==> claim.content in me.metadataHad)
  }

  predicate ClaimInv(files: map<FileKey, FileState>, seen: set<Identity>, readers: map<Rid, Reader>, claims: set<Claim>) {
    && (forall claim :: claim in claims ==> claim.id in seen && Upheld(files, claim))
    && (forall claim, r :: claim in claims && r in readers ==> Witnessed(readers[r], claim))
  }

  /** Every remembered pair is the parse of bytes read under its two identities. */
  predicate EntryInv(c: Codec, entries: map<Path, Entry>, origins: map<Path, Origin>, claims: set<Claim>) {
    && |entries| <= CAPACITY && origins.Keys == entries.Keys
    && forall path :: path in entries ==> Sound(c, entries[path], origins[path], claims)
  }

  predicate Sound(c: Codec, e: Entry, o: Origin, claims: set<Claim>) {
    && Claim(e.html, o.html) in claims && Claim(e.metadata, o.metadata) in claims
    && Parse(c, o.html, o.metadata) == Ok(e.parts)
  }

  ghost predicate ReadersInv(c: Codec, w: World) {
    forall r :: r in w.readers ==> ReaderInv(c, w.files, w.seen, w.claims, w.readers[r])
  }

  ghost predicate Inv(c: Codec, w: World) {
    && ClockInv(w.clock, w.files, w.seen)
    && ReadersInv(c, w)
    && ClaimInv(w.files, w.seen, w.readers, w.claims)
    && EntryInv(c, w.entries, w.origins, w.claims)
  }

  // ---- Changes to files ----

  lemma NotingKeeps(c: Codec, w: World, key: FileKey, content: Content, modified: nat, me: Reader)
    requires ReaderInv(c, w.files, w.seen, w.claims, me)
    ensures
      var v := Stamp(w, key, content, modified);
      ReaderInv(c, v.files, v.seen, v.claims, Noting(me, key, content))
  {
    var noted := Noting(me, key, content);
    if me.phase.Finished? {
      var h, m :| h in me.htmlHad && m in me.metadataHad && me.phase.result == Parse(c, h, m);
      assert h in noted.htmlHad && m in noted.metadataHad;
    }
  }

  lemma StampClaims(w: World, key: FileKey, content: Content, modified: nat)
    requires ClockInv(w.clock, w.files, w.seen) && ClaimInv(w.files, w.seen, w.readers, w.claims)
    ensures
      var v := Stamp(w, key, content, modified);
      ClockInv(v.clock, v.files, v.seen) && ClaimInv(v.files, v.seen, v.readers, v.claims)
  {
    var v := Stamp(w, key, content, modified);
    assert IdentityOf(key, v.files[key]) !in w.seen;
    forall claim | claim in v.claims ensures claim.id in v.seen && Upheld(v.files, claim) {
      assert Upheld(w.files, claim);
    }
    forall claim, r | claim in v.claims && r in v.readers ensures Witnessed(v.readers[r], claim) {
      assert Witnessed(w.readers[r], claim);
    }
  }

  lemma FileKeeps(c: Codec, w: World, a: Action, v: World)
    requires Inv(c, w) && FileNext(w, a, v)
    ensures Inv(c, v)
  {
    if a.Free? {
      forall claim | claim in v.claims ensures Upheld(v.files, claim) {
        assert Upheld(w.files, claim);
      }
      forall r | r in v.readers ensures ReaderInv(c, v.files, v.seen, v.claims, v.readers[r]) {
        assert ReaderInv(c, w.files, w.seen, w.claims, w.readers[r]);
      }
    } else {
      var modified := if a.Create? then w.clock else a.modified;
      StampClaims(w, a.key, a.content, modified);
      forall r | r in v.readers ensures ReaderInv(c, v.files, v.seen, v.claims, v.readers[r]) {
        NotingKeeps(c, w, a.key, a.content, modified, w.readers[r]);
      }
    }
  }

  // ---- Steps of a read ----

  /** More claims change nothing for a reader. */
  lemma MoreClaims(c: Codec, w: World, me: Reader, claims: set<Claim>)
    requires ReaderInv(c, w.files, w.seen, w.claims, me) && w.claims <= claims
    ensures ReaderInv(c, w.files, w.seen, claims, me)
  {
  }

  lemma OthersKeep(c: Codec, w: World, r: Rid, v: World)
    requires ReadersInv(c, w) && r in v.readers && v.readers == w.readers[r := v.readers[r]]
    requires v.files == w.files && v.seen == w.seen && w.claims <= v.claims
    requires ReaderInv(c, v.files, v.seen, v.claims, v.readers[r])
    ensures ReadersInv(c, v)
  {
    forall q | q in v.readers ensures ReaderInv(c, v.files, v.seen, v.claims, v.readers[q]) {
      if q != r {
        MoreClaims(c, w, w.readers[q], v.claims);
      }
    }
  }

  /** What a lookup finds was true of both files during the read that finds it. */
  lemma HitIsAnswer(c: Codec, w: World, me: Reader, r: Rid)
    requires EntryInv(c, w.entries, w.origins, w.claims) && ClaimInv(w.files, w.seen, w.readers, w.claims)
    requires r in w.readers && me == w.readers[r] && me.phase.SawBoth?
    requires Lookup(w.entries, me.path, me.phase.html, me.phase.metadata).Some?
    ensures Answered(c, me, Ok(Lookup(w.entries, me.path, me.phase.html, me.phase.metadata).value))
  {
    var e, o := w.entries[me.path], w.origins[me.path];
    assert Sound(c, e, o, w.claims);
    assert Witnessed(me, Claim(e.html, o.html)) && Witnessed(me, Claim(e.metadata, o.metadata));
    assert o.html in me.htmlHad && o.metadata in me.metadataHad;
  }

  lemma AnswerCarries(c: Codec, me: Reader, next: Reader, result: Result<Parts, ParseError>)
    requires Answered(c, me, result) && next.htmlHad == me.htmlHad && next.metadataHad == me.metadataHad
    ensures Answered(c, next, result)
  {
    var h, m :| h in me.htmlHad && m in me.metadataHad && result == Parse(c, h, m);
    assert h in next.htmlHad && m in next.metadataHad;
  }

  /** The acting reader, up to its last step. */
  lemma GatheringReader(c: Codec, w: World, r: Rid, a: Action, v: World)
    requires ClockInv(w.clock, w.files, w.seen) && r in w.readers && ReadNext(c, w, r, a, v)
    requires ReaderInv(c, w.files, w.seen, w.claims, w.readers[r]) && !a.LookUp? && !a.Conclude?
    ensures r in v.readers && ReaderInv(c, v.files, v.seen, v.claims, v.readers[r])
  {
  }

  lemma LookingReader(c: Codec, w: World, r: Rid, v: World)
    requires Inv(c, w) && r in w.readers && ReadNext(c, w, r, LookUp(r), v)
    ensures r in v.readers && ReaderInv(c, v.files, v.seen, v.claims, v.readers[r])
  {
    var me := w.readers[r];
    assert ReaderInv(c, w.files, w.seen, w.claims, me);
    var known := Lookup(w.entries, me.path, me.phase.html, me.phase.metadata);
    if known.Some? {
      HitIsAnswer(c, w, me, r);
      AnswerCarries(c, me, v.readers[r], Ok(known.value));
    }
  }

  lemma ConcludingReader(c: Codec, w: World, r: Rid, v: World)
    requires r in w.readers && ReadNext(c, w, r, Conclude(r), v)
    requires ReaderInv(c, w.files, w.seen, w.claims, w.readers[r])
    ensures r in v.readers && ReaderInv(c, v.files, v.seen, v.claims, v.readers[r])
  {
    var me := w.readers[r];
    var h, m := me.phase.htmlBytes, me.phase.metadataBytes;
    var next := v.readers[r];
    assert next == me.(phase := Finished(Parse(c, h, m)));
    assert h in next.htmlHad && m in next.metadataHad;
    assert Answered(c, next, Parse(c, h, m));
  }

  /** Somebody who sees an identity now sees the bytes claimed for it now. */
  lemma ReadWitnesses(c: Codec, w: World, r: Rid, a: Action, v: World, claim: Claim)
    requires r in w.readers && ReadNext(c, w, r, a, v) && ReaderInv(c, w.files, w.seen, w.claims, w.readers[r])
    requires Witnessed(w.readers[r], claim) && Upheld(w.files, claim)
    ensures r in v.readers && Witnessed(v.readers[r], claim)
  {
  }

  /** Bytes just read are claimed truly, and every read that saw the identity has them on record. */
  lemma NewClaim(c: Codec, w: World, claim: Claim)
    requires ReadersInv(c, w) && KeyOf(claim.id) in w.files && claim.content == w.files[KeyOf(claim.id)].content
    ensures Upheld(w.files, claim)
    ensures forall q :: q in w.readers ==> Witnessed(w.readers[q], claim)
  {
    forall q | q in w.readers ensures Witnessed(w.readers[q], claim) {
      assert ReaderInv(c, w.files, w.seen, w.claims, w.readers[q]);
    }
  }

  /** What a step of a read claims, if anything. */
  function Claimed(w: World, r: Rid, a: Action): set<Claim>
    requires r in w.readers
  {
    var me := w.readers[r];
    if a.ReadMetadata? && me.phase.Missed? && me.metadata in w.files then
      {Claim(me.phase.metadata, w.files[me.metadata].content)}
    else if a.ReadHtml? && me.phase.HasMetadata? && me.html in w.files then
      {Claim(me.phase.html, w.files[me.html].content)}
    else {}
  }

  lemma ReadFrame(c: Codec, w: World, r: Rid, a: Action, v: World)
    requires r in w.readers && ReadNext(c, w, r, a, v)
    ensures r in v.readers && v.readers == w.readers[r := v.readers[r]] && v.claims == w.claims + Claimed(w, r, a)
    ensures v.files == w.files && v.seen == w.seen && v.clock == w.clock
  {
  }

  lemma ClaimedHolds(c: Codec, w: World, r: Rid, a: Action, claim: Claim)
    requires Inv(c, w) && r in w.readers && claim in Claimed(w, r, a)
    ensures claim.id in w.seen && Upheld(w.files, claim)
    ensures forall q :: q in w.readers ==> Witnessed(w.readers[q], claim)
  {
    assert ReaderInv(c, w.files, w.seen, w.claims, w.readers[r]);
    NewClaim(c, w, claim);
  }

  lemma ReadClaims(c: Codec, w: World, r: Rid, a: Action, v: World)
    requires Inv(c, w) && r in w.readers && ReadNext(c, w, r, a, v)
    ensures ClaimInv(v.files, v.seen, v.readers, v.claims)
  {
    ReadFrame(c, w, r, a, v);
    assert ReaderInv(c, w.files, w.seen, w.claims, w.readers[r]);
    forall claim | claim in v.claims
      ensures claim.id in w.seen && Upheld(w.files, claim)
      ensures forall q :: q in v.readers ==> Witnessed(v.readers[q], claim)
    {
      if claim !in w.claims {
        ClaimedHolds(c, w, r, a, claim);
      }
      assert Witnessed(w.readers[r], claim);
      ReadWitnesses(c, w, r, a, v, claim);
    }
  }

  lemma RememberSound(c: Codec, entries: map<Path, Entry>, origins: map<Path, Origin>, claims: set<Claim>,
                      path: Path, e: Entry, o: Origin)
    requires EntryInv(c, entries, origins, claims) && Sound(c, e, o, claims)
    ensures EntryInv(c, Remember(entries, path, e),
                     (if |entries| >= CAPACITY && path !in entries then map[] else origins)[path := o], claims)
  {
    RememberBound(entries, path, e);
  }

  lemma MoreClaimsForEntries(c: Codec, entries: map<Path, Entry>, origins: map<Path, Origin>, claims: set<Claim>, more: set<Claim>)
    requires EntryInv(c, entries, origins, claims)
    ensures EntryInv(c, entries, origins, claims + more)
  {
    forall path | path in entries ensures Sound(c, entries[path], origins[path], claims + more) {
      assert Sound(c, entries[path], origins[path], claims);
    }
  }

  lemma ReadEntries(c: Codec, w: World, r: Rid, a: Action, v: World)
    requires EntryInv(c, w.entries, w.origins, w.claims) && r in w.readers && ReadNext(c, w, r, a, v)
    requires ReaderInv(c, w.files, w.seen, w.claims, w.readers[r])
    ensures EntryInv(c, v.entries, v.origins, v.claims)
  {
    ReadFrame(c, w, r, a, v);
    var me := w.readers[r];
    if a.Conclude? {
      var result := Parse(c, me.phase.htmlBytes, me.phase.metadataBytes);
      if result.Ok? {
        RememberSound(c, w.entries, w.origins, w.claims, me.path,
                      Entry(me.phase.html, me.phase.metadata, result.value),
                      Origin(me.phase.htmlBytes, me.phase.metadataBytes));
      }
    } else {
      MoreClaimsForEntries(c, w.entries, w.origins, w.claims, Claimed(w, r, a));
    }
  }

  lemma ReadKeeps(c: Codec, w: World, r: Rid, a: Action, v: World)
    requires Inv(c, w) && r in w.readers && ReadNext(c, w, r, a, v)
    ensures Inv(c, v)
  {
    assert ReaderInv(c, w.files, w.seen, w.claims, w.readers[r]);
    if a.LookUp? {
      LookingReader(c, w, r, v);
    } else if a.Conclude? {
      ConcludingReader(c, w, r, v);
    } else {
      GatheringReader(c, w, r, a, v);
    }
    ReadClaims(c, w, r, a, v);
    ReadEntries(c, w, r, a, v);
    ReadFrame(c, w, r, a, v);
    OthersKeep(c, w, r, v);
  }

  lemma BeginKeeps(c: Codec, w: World, a: Action, v: World)
    requires Inv(c, w) && a.Begin? && BeginNext(w, a, v)
    ensures Inv(c, v)
  {
    forall claim, q | claim in v.claims && q in v.readers ensures Witnessed(v.readers[q], claim) {
      assert q in w.readers ==> Witnessed(w.readers[q], claim);
    }
    OthersKeep(c, w, a.r, v);
  }

  lemma LeaveKeeps(c: Codec, w: World, r: Rid, v: World)
    requires Inv(c, w) && v == w.(readers := w.readers - {r})
    ensures Inv(c, v)
  {
    forall claim, q | claim in v.claims && q in v.readers ensures Witnessed(v.readers[q], claim) {
      assert Witnessed(w.readers[q], claim);
    }
    forall q | q in v.readers ensures ReaderInv(c, v.files, v.seen, v.claims, v.readers[q]) {
      assert ReaderInv(c, w.files, w.seen, w.claims, w.readers[q]);
    }
  }

  lemma StepKeepsInv(c: Codec, w: World, a: Action, v: World)
    requires Inv(c, w) && Next(c, w, a, v)
    ensures Inv(c, v)
  {
    if IsFile(a) {
      FileKeeps(c, w, a, v);
    } else if a.Begin? {
      BeginKeeps(c, w, a, v);
    } else if a.Leave? {
      LeaveKeeps(c, w, a.r, v);
    } else {
      ReadKeeps(c, w, a.r, a, v);
    }
  }

  // ---- Whole histories ----

  predicate Run(c: Codec, worlds: seq<World>, actions: seq<Action>) {
    && |worlds| == |actions| + 1
    && Init(worlds[0])
    && forall i {:trigger actions[i]} :: 0 <= i < |actions| ==> Next(c, worlds[i], actions[i], worlds[i + 1])
  }

  lemma {:induction false} RunInv(c: Codec, worlds: seq<World>, actions: seq<Action>, i: nat)
    requires Run(c, worlds, actions) && i < |worlds|
    ensures Inv(c, worlds[i])
  {
    if i > 0 {
      RunInv(c, worlds, actions, i - 1);
      StepKeepsInv(c, worlds[i - 1], actions[i - 1], worlds[i]);
    }
  }

  /** A read stays with its files, and its record grows only by contents they have at the time. */
  lemma ReaderStep(c: Codec, w: World, a: Action, v: World, r: Rid)
    requires Next(c, w, a, v) && r in w.readers && a != Leave(r)
    requires w.readers[r].html in w.files && w.readers[r].metadata in w.files
    ensures r in v.readers && v.readers[r].html == w.readers[r].html && v.readers[r].metadata == w.readers[r].metadata
    ensures v.readers[r].html in v.files && v.readers[r].metadata in v.files
    ensures v.readers[r].htmlHad <= w.readers[r].htmlHad + {v.files[v.readers[r].html].content}
    ensures v.readers[r].metadataHad <= w.readers[r].metadataHad + {v.files[v.readers[r].metadata].content}
  {
  }

  /** Everything on record was really there at some moment of the read. */
  lemma {:induction false} RecordIsTrue(c: Codec, worlds: seq<World>, actions: seq<Action>, b: nat, e: nat, r: Rid)
    requires Run(c, worlds, actions) && b < e < |worlds|
    requires actions[b].Begin? && actions[b].r == r
    requires forall i :: b < i < e ==> actions[i] != Leave(r)
    ensures r in worlds[e].readers
    ensures
      var me := worlds[e].readers[r];
      && me.html == actions[b].html && me.metadata == actions[b].metadata
      && me.html in worlds[e].files && me.metadata in worlds[e].files
      && (forall x :: x in me.htmlHad ==> Had(worlds, b, e, me.html, x))
      && (forall x :: x in me.metadataHad ==> Had(worlds, b, e, me.metadata, x))
    decreases e
  {
    if e == b + 1 {
      assert Next(c, worlds[b], actions[b], worlds[e]);
      assert HadAt(worlds, e, actions[b].html, worlds[e].files[actions[b].html].content);
      assert HadAt(worlds, e, actions[b].metadata, worlds[e].files[actions[b].metadata].content);
    } else {
      RecordIsTrue(c, worlds, actions, b, e - 1, r);
      ReaderStep(c, worlds[e - 1], actions[e - 1], worlds[e], r);
      var me := worlds[e].readers[r];
      assert HadAt(worlds, e, me.html, worlds[e].files[me.html].content);
      assert HadAt(worlds, e, me.metadata, worlds[e].files[me.metadata].content);
      forall x | x in me.htmlHad ensures Had(worlds, b, e, me.html, x) {
        HadGrows(worlds, b, e, me.html, x);
      }
      forall x | x in me.metadataHad ensures Had(worlds, b, e, me.metadata, x) {
        HadGrows(worlds, b, e, me.metadata, x);
      }
    }
  }

  ghost predicate HadAt(worlds: seq<World>, k: nat, key: FileKey, x: Content) {
    k < |worlds| && key in worlds[k].files && worlds[k].files[key].content == x
  }

  /** The file had these contents at some moment after `b`, up to `e`. */
  ghost predicate Had(worlds: seq<World>, b: nat, e: nat, key: FileKey, x: Content) {
    exists k :: b < k <= e && HadAt(worlds, k, key, x)
  }

  lemma HadGrows(worlds: seq<World>, b: nat, e: nat, key: FileKey, x: Content)
    requires b < e
    ensures Had(worlds, b, e - 1, key, x) || HadAt(worlds, e, key, x) ==> Had(worlds, b, e, key, x)
  {
    if Had(worlds, b, e - 1, key, x) {
      var k :| b < k <= e - 1 && HadAt(worlds, k, key, x);
      assert b < k <= e && HadAt(worlds, k, key, x);
    }
  }

  /**
   With edits, replacements and other readers at any point in between, every answer,
   remembered or computed, is what parsing and hashing gives for contents the two
   files had during that very read; and the memory holds no more than its capacity.
   */
  lemma CacheRefinesParse(c: Codec, worlds: seq<World>, actions: seq<Action>, b: nat, e: nat, r: Rid)
    returns (i: nat, j: nat)
    requires Run(c, worlds, actions) && b < e < |worlds|
    requires actions[b].Begin? && actions[b].r == r
    requires forall i :: b < i < e ==> actions[i] != Leave(r)
    requires r in worlds[e].readers && worlds[e].readers[r].phase.Finished?
    ensures b < i <= e && b < j <= e
    ensures actions[b].html in worlds[i].files && actions[b].metadata in worlds[j].files
    ensures worlds[e].readers[r].phase.result
         == Parse(c, worlds[i].files[actions[b].html].content, worlds[j].files[actions[b].metadata].content)
    ensures |worlds[e].entries| <= CAPACITY
  {
    FinishedAnswer(c, worlds, actions, e, r);
    RecordIsTrue(c, worlds, actions, b, e, r);
    var me := worlds[e].readers[r];
    var h, m :| h in me.htmlHad && m in me.metadataHad && me.phase.result == Parse(c, h, m);
    i, j := Instants(worlds, b, e, me.html, h, me.metadata, m);
  }

  lemma FinishedAnswer(c: Codec, worlds: seq<World>, actions: seq<Action>, e: nat, r: Rid)
    requires Run(c, worlds, actions) && e < |worlds| && r in worlds[e].readers && worlds[e].readers[r].phase.Finished?
    ensures Answered(c, worlds[e].readers[r], worlds[e].readers[r].phase.result)
    ensures |worlds[e].entries| <= CAPACITY
  {
    RunInv(c, worlds, actions, e);
    assert ReaderInv(c, worlds[e].files, worlds[e].seen, worlds[e].claims, worlds[e].readers[r]);
  }

  lemma Instants(worlds: seq<World>, b: nat, e: nat, html: FileKey, h: Content, metadata: FileKey, m: Content)
    returns (i: nat, j: nat)
    requires Had(worlds, b, e, html, h) && Had(worlds, b, e, metadata, m)
    ensures b < i <= e && HadAt(worlds, i, html, h) && b < j <= e && HadAt(worlds, j, metadata, m)
  {
    i :| b < i <= e && HadAt(worlds, i, html, h);
    j :| b < j <= e && HadAt(worlds, j, metadata, m);
  }

  /** A read during which neither file changes answers exactly as an uncached one. */
  lemma QuietReadIsExact(c: Codec, worlds: seq<World>, actions: seq<Action>, b: nat, e: nat, r: Rid)
    requires Run(c, worlds, actions) && b < e < |worlds|
    requires actions[b].Begin? && actions[b].r == r
    requires forall i :: b < i < e ==> actions[i] != Leave(r)
    requires r in worlds[e].readers && worlds[e].readers[r].phase.Finished?
    requires forall k :: b < k <= e ==>
      && actions[b].html in worlds[k].files && actions[b].metadata in worlds[k].files
      && actions[b].html in worlds[e].files && worlds[k].files[actions[b].html] == worlds[e].files[actions[b].html]
      && actions[b].metadata in worlds[e].files && worlds[k].files[actions[b].metadata] == worlds[e].files[actions[b].metadata]
    ensures actions[b].html in worlds[e].files && actions[b].metadata in worlds[e].files
    ensures worlds[e].readers[r].phase.result
         == Parse(c, worlds[e].files[actions[b].html].content, worlds[e].files[actions[b].metadata].content)
  {
    var i, j := CacheRefinesParse(c, worlds, actions, b, e, r);
  }

  /**
   The memory cannot hide a torn pair: beside the metadata of one publication, an
   undisturbed read gives that publication's parts exactly if the HTML is its body,
   and refuses every other HTML.
   */
  lemma QuietReadOfPublication(
    c: Codec, worlds: seq<World>, actions: seq<Action>, b: nat, e: nat, r: Rid, body: Content, parts: Parts)
    requires Reliable(c) && Run(c, worlds, actions) && b < e < |worlds|
    requires actions[b].Begin? && actions[b].r == r
    requires forall i :: b < i < e ==> actions[i] != Leave(r)
    requires r in worlds[e].readers && worlds[e].readers[r].phase.Finished?
    requires forall k :: b < k <= e ==>
      && actions[b].html in worlds[k].files && actions[b].metadata in worlds[k].files
      && actions[b].html in worlds[e].files && worlds[k].files[actions[b].html] == worlds[e].files[actions[b].html]
      && actions[b].metadata in worlds[e].files && worlds[k].files[actions[b].metadata] == worlds[e].files[actions[b].metadata]
    requires worlds[e].files[actions[b].metadata].content == MetadataOf(c, body, parts)
    ensures worlds[e].readers[r].phase.result
         == if worlds[e].files[actions[b].html].content != body then Err(Inconsistent)
            else if Presentable(c, parts) then Ok(parts) else Err(InvalidPart)
  {
    QuietReadIsExact(c, worlds, actions, b, e, r);
    ParsePublished(c, worlds[e].files[actions[b].html].content, body, parts);
  }
}
