/**
 The keys under which generation work is registered (static_routes.rs): one
 directory entry may be asked for under several spellings, and every spelling
 must find the work already in progress for that entry.

 The directory's own name lookup is a parameter. It may fold more than ASCII
 case (for example by Unicode normalisation); the observed case rule only has to
 agree with it on ASCII letters.
 */
module WorkKeys {
  import opened Bytes

  type Name = seq<Byte>

  datatype CaseRule = Folds | Distinct | Unknown

  function Lower(b: Byte): Byte {
    if 0x41 <= b <= 0x5A then b + 0x20 else b
  }

  function Fold(rule: CaseRule, name: Name): Name {
    match rule
    case Folds => seq(|name|, i requires 0 <= i < |name| => Lower(name[i]))
    case Distinct => name
    case Unknown => name
  }

  /** The same character, or the two cases of one ASCII letter. */
  predicate SameLetter(a: Byte, b: Byte) {
    || a == b
    || (0x41 <= a <= 0x5A && b == a + 0x20)
    || (0x41 <= b <= 0x5A && a == b + 0x20)
  }

  /** Folding identifies exactly the names that differ in ASCII case only, and without a rule none. */
  lemma FoldMeaning(rule: CaseRule, a: Name, b: Name)
    ensures Fold(rule, a) == Fold(rule, b) <==>
      if rule.Folds? then |a| == |b| && forall i :: 0 <= i < |a| ==> SameLetter(a[i], b[i]) else a == b
  {
    if rule.Folds? && Fold(rule, a) == Fold(rule, b) {
      assert |a| == |Fold(rule, a)| == |b|;
      forall i | 0 <= i < |a| ensures SameLetter(a[i], b[i]) {
        assert Fold(rule, a)[i] == Lower(a[i]) && Fold(rule, b)[i] == Lower(b[i]);
      }
    }
  }

  /** A directory at one instant: its listing, its inodes and its native lookup. */
  datatype Directory = Directory(listing: seq<Name>, inode: map<Name, nat>, lookup: Name -> Option<Name>)

  ghost predicate WellFormed(d: Directory, rule: CaseRule) {
    && (forall i, j :: 0 <= i < j < |d.listing| ==> d.listing[i] != d.listing[j])
    && (forall n :: n in d.listing <==> n in d.inode)
    && (forall n :: d.lookup(n).Some? ==> d.lookup(n).value in d.inode)
    && (forall n :: n in d.inode ==> d.lookup(n) == Some(n))
    && (rule.Folds? ==> forall m, n :: Fold(rule, m) == Fold(rule, n) ==> d.lookup(m) == d.lookup(n))
  }

  // ---- The stored spelling ----

  function WithInode(listing: seq<Name>, inode: map<Name, nat>, id: nat): seq<Name> {
    if listing == [] then []
    else (if listing[0] in inode && inode[listing[0]] == id then [listing[0]] else [])
         + WithInode(listing[1..], inode, id)
  }

  function Matching(names: seq<Name>, rule: CaseRule, folded: Name): seq<Name> {
    if names == [] then []
    else (if Fold(rule, names[0]) == folded then [names[0]] else []) + Matching(names[1..], rule, folded)
  }

  /** Hard links leave several candidates; the requested spelling selects one of them, if it can. */
  function Choose(candidates: seq<Name>, rule: CaseRule, name: Name): Name
    requires candidates != []
  {
    if |candidates| == 1 then candidates[0]
    else if name in candidates then name
    else
      var matching := Matching(candidates, rule, Fold(rule, name));
      if |matching| == 1 then matching[0] else name
  }

  /** One attempt looks a name up and then lists the directory, which may have changed in between. */
  datatype Attempt = Attempt(looked: Directory, listed: Directory)

  datatype Sighting = Missing | Stored(name: Name) | Replaced

  function Sight(t: Attempt, rule: CaseRule, name: Name): Sighting {
    var found := t.looked.lookup(name);
    if found.None? || found.value !in t.looked.inode then Missing
    else
      var candidates := WithInode(t.listed.listing, t.listed.inode, t.looked.inode[found.value]);
      if candidates == [] then Replaced else Stored(Choose(candidates, rule, name))
  }

  /** The stored spelling of the entry a name selects, in two attempts. */
  function StoredNameSeen(first: Attempt, second: Attempt, rule: CaseRule, name: Name): Option<Name> {
    match Sight(first, rule, name)
    case Missing => None
    case Stored(n) => Some(n)
    case Replaced =>
      match Sight(second, rule, name)
      case Missing => None
      case Stored(n) => Some(n)
      case Replaced => Some(name)
  }

  /** The same in a directory that holds still. */
  function StoredName(d: Directory, rule: CaseRule, name: Name): Option<Name> {
    StoredNameSeen(Attempt(d, d), Attempt(d, d), rule, name)
  }

  /** A replacement during the first attempt is made good by a second one that is left alone. */
  lemma SecondAttemptSettles(first: Attempt, d: Directory, rule: CaseRule, name: Name)
    requires WellFormed(d, rule) && Sight(first, rule, name).Replaced?
    ensures StoredNameSeen(first, Attempt(d, d), rule, name) == StoredName(d, rule, name)
  {
  }

  lemma {:induction false} MatchingIn(names: seq<Name>, rule: CaseRule, folded: Name, n: Name)
    requires n in Matching(names, rule, folded)
    ensures n in names
  {
    if Fold(rule, names[0]) != folded || n != names[0] {
      MatchingIn(names[1..], rule, folded, n);
    }
  }

  /** Whatever changes in between, an answer is the requested spelling or a listed name of the file looked up. */
  lemma SightIsOfTheFile(t: Attempt, rule: CaseRule, name: Name)
    requires Distinctive(t.listed.listing) && Sight(t, rule, name).Stored? && Sight(t, rule, name).name != name
    ensures t.looked.lookup(name).Some? && t.looked.lookup(name).value in t.looked.inode
    ensures
      var n := Sight(t, rule, name).name;
      && n in t.listed.listing && n in t.listed.inode
      && t.listed.inode[n] == t.looked.inode[t.looked.lookup(name).value]
  {
    var id := t.looked.inode[t.looked.lookup(name).value];
    WithInodeMeaning(t.listed.listing, t.listed.inode, id);
    var candidates := WithInode(t.listed.listing, t.listed.inode, id);
    var matching := Matching(candidates, rule, Fold(rule, name));
    if |candidates| != 1 {
      MatchingIn(candidates, rule, Fold(rule, name), matching[0]);
    }
  }

  datatype WorkKey = WorkKey(entry: Name, published: Option<Name>)

  function KeyOf(d: Directory, rule: CaseRule, name: Name): WorkKey {
    var stored := StoredName(d, rule, name);
    var entry := Fold(rule, if stored.Some? then stored.value else name);
    var published := Fold(rule, name);
    WorkKey(entry, if published != entry then Some(published) else None)
  }

  function Keys(k: WorkKey): set<Name> {
    {k.entry} + if k.published.Some? then {k.published.value} else {}
  }

  // ---- What the stored spelling is ----

  predicate Distinctive(names: seq<Name>) {
    forall i, j :: 0 <= i < j < |names| ==> names[i] != names[j]
  }

  lemma {:induction false} WithInodeMeaning(listing: seq<Name>, inode: map<Name, nat>, id: nat)
    requires Distinctive(listing)
    ensures Distinctive(WithInode(listing, inode, id))
    ensures forall n :: n in WithInode(listing, inode, id) <==> n in listing && n in inode && inode[n] == id
  {
    if listing != [] {
      WithInodeMeaning(listing[1..], inode, id);
      assert listing == [listing[0]] + listing[1..];
    }
  }

  lemma {:induction false} MatchingMeaning(names: seq<Name>, rule: CaseRule, folded: Name)
    requires Distinctive(names)
    ensures Distinctive(Matching(names, rule, folded))
    ensures forall n :: n in Matching(names, rule, folded) <==> n in names && Fold(rule, n) == folded
  {
    if names != [] {
      MatchingMeaning(names[1..], rule, folded);
      assert names == [names[0]] + names[1..];
    }
  }

  /** The number of names an existing entry's file has in this directory. */
  function Links(d: Directory, entry: Name): nat
    requires entry in d.inode
  {
    |WithInode(d.listing, d.inode, d.inode[entry])|
  }

  /** Whether the entry a name selects can be told apart from its hard links. */
  predicate Recognised(d: Directory, rule: CaseRule, name: Name, entry: Name)
    requires entry in d.inode
  {
    Links(d, entry) == 1 || Fold(rule, name) == Fold(rule, entry)
  }

  /** Stored names that agree with a spelling up to the rule are the entry it selects. */
  lemma FoldSelects(d: Directory, rule: CaseRule, name: Name, other: Name)
    requires WellFormed(d, rule) && Fold(rule, name) == Fold(rule, other)
    ensures d.lookup(name) == d.lookup(other)
  {
  }

  lemma OnlyOne(names: seq<Name>, only: Name)
    requires Distinctive(names) && forall n :: n in names ==> n == only
    ensures |names| == if only in names then 1 else 0
  {
    if names != [] {
      assert names[0] in names && names[|names| - 1] in names;
    }
  }

  /** Among the hard links, the rule picks out the selected entry or nothing. */
  lemma {:induction false} MatchingIsEntry(d: Directory, rule: CaseRule, candidates: seq<Name>, name: Name)
    requires WellFormed(d, rule) && Distinctive(candidates) && d.lookup(name).Some?
    requires forall n :: n in candidates ==> n in d.inode
    ensures
      var entry, matching := d.lookup(name).value, Matching(candidates, rule, Fold(rule, name));
      && |matching| == (if entry in candidates && Fold(rule, name) == Fold(rule, entry) then 1 else 0)
      && (|matching| == 1 ==> matching[0] == entry)
  {
    var entry, matching := d.lookup(name).value, Matching(candidates, rule, Fold(rule, name));
    MatchingMeaning(candidates, rule, Fold(rule, name));
    forall n | n in matching ensures n == entry {
      if rule.Folds? {
        FoldSelects(d, rule, n, name);
      }
    }
    OnlyOne(matching, entry);
    assert |matching| == 1 ==> matching[0] in matching;
  }

  lemma StoredNameMeaning(d: Directory, rule: CaseRule, name: Name)
    requires WellFormed(d, rule)
    ensures d.lookup(name).None? ==> StoredName(d, rule, name).None?
    ensures d.lookup(name).Some? ==>
      StoredName(d, rule, name) ==
        Some(if Recognised(d, rule, name, d.lookup(name).value) then d.lookup(name).value else name)
  {
    if d.lookup(name).Some? {
      var entry := d.lookup(name).value;
      WithInodeMeaning(d.listing, d.inode, d.inode[entry]);
      var candidates := WithInode(d.listing, d.inode, d.inode[entry]);
      assert entry in candidates;
      MatchingIsEntry(d, rule, candidates, name);
    }
  }

  lemma KeysMeaning(d: Directory, rule: CaseRule, name: Name)
    requires WellFormed(d, rule)
    ensures
      var found := d.lookup(name);
      Keys(KeyOf(d, rule, name)) ==
        {Fold(rule, name)} + if found.Some? && Recognised(d, rule, name, found.value)
                             then {Fold(rule, found.value)} else {}
  {
    StoredNameMeaning(d, rule, name);
  }

  // ---- When two requests share work ----

  predicate Share(a: WorkKey, b: WorkKey) {
    Keys(a) * Keys(b) != {}
  }

  ghost predicate SameEntry(d: Directory, rule: CaseRule, a: Name, b: Name) {
    d.lookup(a) == d.lookup(b) && (d.lookup(a).None? ==> Fold(rule, a) == Fold(rule, b))
  }

  lemma ShareWitness(a: WorkKey, b: WorkKey, k: Name)
    requires k in Keys(a) && k in Keys(b)
    ensures Share(a, b)
  {
    assert k in Keys(a) * Keys(b);
  }

  /** Requests never share work across different entries, hard links or not. */
  lemma SharedWorkIsOneEntry(d: Directory, rule: CaseRule, a: Name, b: Name)
    requires WellFormed(d, rule) && Share(KeyOf(d, rule, a), KeyOf(d, rule, b))
    ensures SameEntry(d, rule, a, b)
  {
    KeysMeaning(d, rule, a);
    KeysMeaning(d, rule, b);
    var k :| k in Keys(KeyOf(d, rule, a)) * Keys(KeyOf(d, rule, b));
    var a' := if k == Fold(rule, a) then a else d.lookup(a).value;
    var b' := if k == Fold(rule, b) then b else d.lookup(b).value;
    FoldSelects(d, rule, a', b');
    assert d.lookup(a') == d.lookup(a) && d.lookup(b') == d.lookup(b);
  }

  /**
   Two requests share work exactly when they mean the same entry, and that entry's
   hard links do not hide it: either both spellings are recognised or they agree.
   */
  lemma ShareIffSameEntry(d: Directory, rule: CaseRule, a: Name, b: Name)
    requires WellFormed(d, rule)
    ensures Share(KeyOf(d, rule, a), KeyOf(d, rule, b)) <==>
      && SameEntry(d, rule, a, b)
      && (|| Fold(rule, a) == Fold(rule, b)
          || (Recognised(d, rule, a, d.lookup(a).value) && Recognised(d, rule, b, d.lookup(b).value)))
  {
    KeysMeaning(d, rule, a);
    KeysMeaning(d, rule, b);
    var ka, kb := KeyOf(d, rule, a), KeyOf(d, rule, b);
    if Share(ka, kb) {
      SharedWorkIsOneEntry(d, rule, a, b);
      if Fold(rule, a) != Fold(rule, b) {
        var k :| k in Keys(ka) * Keys(kb);
        assert d.lookup(a).Some?;
      }
    } else if Fold(rule, a) == Fold(rule, b) {
      ShareWitness(ka, kb, Fold(rule, a));
    } else if SameEntry(d, rule, a, b) && Recognised(d, rule, a, d.lookup(a).value)
              && Recognised(d, rule, b, d.lookup(b).value) {
      ShareWitness(ka, kb, Fold(rule, d.lookup(a).value));
    }
  }

  /** One file under two names, the first of which has two more spellings. */
  function TwoLinks(id: nat): Directory {
    Directory([[1], [2]], map[[1] := id, [2] := id],
              n => if n == [1] || n == [3] || n == [4] then Some([1]) else if n == [2] then Some([2]) else None)
  }

  /** Hard links can hide an entry: two spellings of it, neither stored, then share nothing. */
  lemma HardLinkHidesEntry(id: nat)
    ensures WellFormed(TwoLinks(id), Distinct) && SameEntry(TwoLinks(id), Distinct, [3], [4])
    ensures !Share(KeyOf(TwoLinks(id), Distinct, [3]), KeyOf(TwoLinks(id), Distinct, [4]))
  {
    var d := TwoLinks(id);
    var rest: seq<Name> := [[2]];
    assert d.listing[1..] == rest && rest[1..] == [];
    assert WithInode(rest, d.inode, id) == rest;
    assert Links(d, [1]) == 2;
    ShareIffSameEntry(d, Distinct, [3], [4]);
  }

  ghost predicate OneEntryPerInode(d: Directory) {
    forall m, n :: m in d.inode && n in d.inode && d.inode[m] == d.inode[n] ==> m == n
  }

  lemma SingleLink(d: Directory, rule: CaseRule, entry: Name)
    requires WellFormed(d, rule) && OneEntryPerInode(d) && entry in d.inode
    ensures Links(d, entry) == 1
  {
    WithInodeMeaning(d.listing, d.inode, d.inode[entry]);
    var candidates := WithInode(d.listing, d.inode, d.inode[entry]);
    assert entry in candidates;
    OnlyOne(candidates, entry);
  }

  /** Without hard links: exactly the same existing entry, or missing names that fold alike. */
  lemma KeysIntersectIffSameEntry(d: Directory, rule: CaseRule, a: Name, b: Name)
    requires WellFormed(d, rule) && OneEntryPerInode(d)
    ensures Share(KeyOf(d, rule, a), KeyOf(d, rule, b)) <==> SameEntry(d, rule, a, b)
  {
    ShareIffSameEntry(d, rule, a, b);
    if d.lookup(a).Some? {
      SingleLink(d, rule, d.lookup(a).value);
    }
  }

  // ---- After publication ----

  /**
   Work registered for `a` stays reachable from every alias of the entry once a
   publication has replaced or created it, whether the filesystem keeps the stored
   spelling or adopts the one published.
   */
  lemma AliasesFindPublishedWork(before: Directory, after: Directory, rule: CaseRule, a: Name, alias: Name)
    requires WellFormed(before, rule) && OneEntryPerInode(before)
    requires WellFormed(after, rule) && OneEntryPerInode(after)
    requires after.lookup(a) == Some(a) || (before.lookup(a).Some? && after.lookup(a) == before.lookup(a))
    requires after.lookup(alias) == after.lookup(a)
    ensures Share(KeyOf(before, rule, a), KeyOf(after, rule, alias))
  {
    var entry := after.lookup(a).value;
    KeysMeaning(before, rule, a);
    KeysMeaning(after, rule, alias);
    SingleLink(after, rule, entry);
    if before.lookup(a).Some? {
      SingleLink(before, rule, before.lookup(a).value);
    }
    ShareWitness(KeyOf(before, rule, a), KeyOf(after, rule, alias), Fold(rule, entry));
  }

  /** A spelling finds work under the spelling its entry is stored with, or under its own. */
  lemma AliasFindsWorkIff(keys: WorkKey, after: Directory, rule: CaseRule, alias: Name)
    requires WellFormed(after, rule) && OneEntryPerInode(after) && after.lookup(alias).Some?
    ensures Share(keys, KeyOf(after, rule, alias)) <==>
      Fold(rule, after.lookup(alias).value) in Keys(keys) || Fold(rule, alias) in Keys(keys)
  {
    var entry := after.lookup(alias).value;
    SingleLink(after, rule, entry);
    KeysMeaning(after, rule, alias);
    if Fold(rule, entry) in Keys(keys) {
      ShareWitness(keys, KeyOf(after, rule, alias), Fold(rule, entry));
    } else if Fold(rule, alias) in Keys(keys) {
      ShareWitness(keys, KeyOf(after, rule, alias), Fold(rule, alias));
    }
  }

  /** The name an entry is stored under once `p` has been published over it. */
  function StoredAfter(before: Directory, p: Name, adopts: bool): Name {
    if adopts || before.lookup(p).None? then p else before.lookup(p).value
  }

  /**
   Work registered for `a` may come to publish under another spelling `p` of the
   same entry, when a refreshed request supplies its template. Every alias still
   finds it if and only if the filesystem keeps stored names, or `p` agrees up to
   the rule with `a` or with the stored name: all known before the publication.
   */
  lemma RefreshedWorkReachableIff(before: Directory, after: Directory, rule: CaseRule, a: Name, p: Name, adopts: bool)
    requires WellFormed(before, rule) && OneEntryPerInode(before) && SameEntry(before, rule, a, p)
    requires WellFormed(after, rule) && OneEntryPerInode(after)
    requires after.lookup(p) == Some(StoredAfter(before, p, adopts))
    ensures (forall alias :: after.lookup(alias) == after.lookup(p) ==>
               Share(KeyOf(before, rule, a), KeyOf(after, rule, alias)))
            <==> (|| !adopts || Fold(rule, p) == Fold(rule, a)
                  || (before.lookup(a).Some? && Fold(rule, p) == Fold(rule, before.lookup(a).value)))
  {
    var keys := KeyOf(before, rule, a);
    RegisteredKeys(before, rule, a);
    var stored := StoredAfter(before, p, adopts);
    if Fold(rule, stored) in Keys(keys) {
      forall alias | after.lookup(alias) == after.lookup(p) ensures Share(keys, KeyOf(after, rule, alias)) {
        AliasFindsWorkIff(keys, after, rule, alias);
      }
    } else {
      AliasFindsWorkIff(keys, after, rule, p);
      assert !Share(keys, KeyOf(after, rule, p));
    }
  }

  lemma RegisteredKeys(d: Directory, rule: CaseRule, a: Name)
    requires WellFormed(d, rule) && OneEntryPerInode(d)
    ensures Keys(KeyOf(d, rule, a)) ==
      {Fold(rule, a)} + if d.lookup(a).Some? then {Fold(rule, d.lookup(a).value)} else {}
  {
    KeysMeaning(d, rule, a);
    if d.lookup(a).Some? {
      SingleLink(d, rule, d.lookup(a).value);
    }
  }

  /** One file whose name may be spelled in four ways. */
  function FourSpellings(stored: Byte, id: nat): Directory {
    Directory([[stored]], map[[stored] := id], n => if |n| == 1 && 1 <= n[0] <= 4 then Some([stored]) else None)
  }

  lemma FourSpellingsFit(stored: Byte, id: nat)
    requires 1 <= stored <= 4
    ensures WellFormed(FourSpellings(stored, id), Distinct) && OneEntryPerInode(FourSpellings(stored, id))
  {
  }

  /**
   Such a publication can lose aliases: the filesystem adopts the third spelling,
   published by a template that joined the work registered for the second. The
   fourth then finds no work, although the second's is still registered.
   */
  lemma AdoptedAliasHidesWork(id: nat)
    ensures
      var before, after := FourSpellings(1, id), FourSpellings(3, id + 1);
      && Share(KeyOf(before, Distinct, [2]), KeyOf(before, Distinct, [3]))
      && after.lookup([3]) == Some([3]) && after.lookup([4]) == after.lookup([2]) == after.lookup([3])
      && !Share(KeyOf(before, Distinct, [2]), KeyOf(after, Distinct, [4]))
  {
    var before, after := FourSpellings(1, id), FourSpellings(3, id + 1);
    FourSpellingsFit(1, id);
    FourSpellingsFit(3, id + 1);
    KeysIntersectIffSameEntry(before, Distinct, [2], [3]);
    KeysMeaning(before, Distinct, [2]);
    AliasFindsWorkIff(KeyOf(before, Distinct, [2]), after, Distinct, [4]);
  }
}
