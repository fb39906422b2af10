/**
 From a request path to the published file (static_routes.rs, files.rs): no
 request can name one of the lock, control, metadata or temporary entries, all of
 which begin with ".leptos-". Percent-decoding is a parameter.
 */
module StaticPath {
  import opened Bytes
  import Tree = SiteTree
  import Staged = Staging

  type Decoder = string -> Option<string>

  const WELL_KNOWN := ".well-known"
  const EXTENSION := ".html"
  const RESERVED := ".leptos-"

  predicate Begins(prefix: string, s: string) {
    |prefix| <= |s| && s[..|prefix|] == prefix
  }

  predicate BlockedDot(segment: string) {
    Begins(".", segment) && segment != WELL_KNOWN
  }

  predicate Acceptable(segment: string) {
    !BlockedDot(segment) && '\0' !in segment && '/' !in segment && '\\' !in segment
  }

  // ---- Segments ----

  function UntilSlash(s: string): (n: nat)
    ensures n <= |s| && '/' !in s[..n] && (n < |s| ==> s[n] == '/')
  {
    if s == [] || s[0] == '/' then 0
    else
      assert s[..1 + UntilSlash(s[1..])] == [s[0]] + s[1..][..UntilSlash(s[1..])];
      1 + UntilSlash(s[1..])
  }

  /** The nonempty pieces between slashes. */
  function Segments(s: string): seq<string>
    decreases |s|
  {
    var n := UntilSlash(s);
    (if n == 0 then [] else [s[..n]]) + if n < |s| then Segments(s[n + 1..]) else []
  }

  function Logical(path: string): string {
    var normalized := if path != "/" && path != "" && path[|path| - 1] == '/' then path + "index" else path;
    if Segments(normalized) == [] then "index" else normalized
  }

  /** The published components, or nothing if any segment is refused. */
  function DecodeAll(segments: seq<string>, decode: Decoder): Option<seq<string>> {
    if segments == [] then Some([])
    else
      var before := DecodeAll(segments[..|segments| - 1], decode);
      var part := decode(segments[|segments| - 1]);
      if before.Some? && part.Some? && Acceptable(part.value) then Some(before.value + [part.value]) else None
  }

  function Finish(parts: seq<string>): Option<seq<string>> {
    if parts == [] then None
    else
      var last := parts[|parts| - 1] + EXTENSION;
      if BlockedDot(last) then None else Some(parts[..|parts| - 1] + [last])
  }

  function Published(path: string, decode: Decoder): Option<seq<string>> {
    match DecodeAll(Segments(Logical(path)), decode)
    case None => None
    case Some(parts) => Finish(parts)
  }

  method Resolve(path: string, decode: Decoder) returns (r: Option<seq<string>>)
    ensures r == Published(path, decode)
  {
    var segments := Segments(Logical(path));
    var parts: seq<string> := [];
    var i := 0;
    while i < |segments|
      invariant i <= |segments| && DecodeAll(segments[..i], decode) == Some(parts)
      invariant DecodeAll(segments, decode).Some? ==> DecodeAll(segments[..i], decode).Some?
    {
      assert segments[..i + 1][..i] == segments[..i];
      var part := decode(segments[i]);
      if part.None? || !Acceptable(part.value) {
        RefusedStays(segments, i + 1, decode);
        return None;
      }
      parts := parts + [part.value];
      i := i + 1;
    }
    assert segments[..i] == segments;
    r := Finish(parts);
  }

  lemma {:induction false} RefusedStays(segments: seq<string>, i: nat, decode: Decoder)
    requires i <= |segments| && DecodeAll(segments[..i], decode).None?
    ensures DecodeAll(segments, decode).None?
    decreases |segments|
  {
    if i == |segments| {
      assert segments[..i] == segments;
    } else {
      var shorter := segments[..|segments| - 1];
      assert shorter[..i] == segments[..i];
      RefusedStays(shorter, i, decode);
    }
  }

  lemma {:induction false} DecodedAcceptable(segments: seq<string>, decode: Decoder)
    requires DecodeAll(segments, decode).Some?
    ensures forall i :: 0 <= i < |DecodeAll(segments, decode).value| ==> Acceptable(DecodeAll(segments, decode).value[i])
  {
    if segments != [] {
      DecodedAcceptable(segments[..|segments| - 1], decode);
    }
  }

  // ---- What is published for which path ----

  /** A path of the given segments. */
  function Join(segments: seq<string>): string {
    if segments == [] then "" else ['/'] + segments[0] + Join(segments[1..])
  }

  predicate Piece(segment: string) {
    segment != "" && '/' !in segment
  }

  predicate Pieces(segments: seq<string>) {
    forall i :: 0 <= i < |segments| ==> Piece(segments[i])
  }

  lemma {:induction false} UntilSlashAt(a: string, rest: string)
    requires '/' !in a && (rest == "" || rest[0] == '/')
    ensures UntilSlash(a + rest) == |a|
  {
    if a == "" {
      assert a + rest == rest;
    } else {
      assert (a + rest)[0] == a[0] && (a + rest)[1..] == a[1..] + rest;
      UntilSlashAt(a[1..], rest);
    }
  }

  lemma {:induction false} SlashSegments(s: string)
    requires s != "" && s[0] == '/'
    ensures Segments(s) == Segments(s[1..])
  {
    var rest := Segments(s[1..]);
    assert Segments(s) == [] + rest;
    assert [] + rest == rest;
  }

  lemma {:induction false} PieceSegments(a: string, rest: string)
    requires Piece(a) && (rest == "" || rest[0] == '/')
    ensures Segments(a + rest) == [a] + Segments(rest)
  {
    var s, n := a + rest, |a|;
    UntilSlashAt(a, rest);
    assert s[..n] == a;
    if rest == "" {
      assert Segments(rest) == [] && [a] + [] == [a];
      assert Segments(s) == [a] + [];
    } else {
      assert s[n + 1..] == rest[1..];
      assert Segments(s) == [a] + Segments(rest[1..]);
      SlashSegments(rest);
    }
  }

  /** Splitting a path gives back its segments. */
  lemma {:induction false} SegmentsJoin(segments: seq<string>)
    requires Pieces(segments)
    ensures Segments(Join(segments)) == segments
    decreases |segments|
  {
    if segments != [] {
      var a, rest := segments[0], Join(segments[1..]);
      assert Piece(segments[0]) && Pieces(segments[1..]);
      SegmentsJoin(segments[1..]);
      assert Join(segments)[1..] == a + rest;
      SlashSegments(Join(segments));
      PieceSegments(a, rest);
      assert [a] + segments[1..] == segments;
    }
  }

  lemma {:induction false} JoinEnds(segments: seq<string>)
    requires segments != [] && Pieces(segments)
    ensures Join(segments) != "" && Join(segments)[|Join(segments)| - 1] != '/'
    decreases |segments|
  {
    assert Piece(segments[0]) && Pieces(segments[1..]);
    if |segments| > 1 {
      JoinEnds(segments[1..]);
    } else {
      assert Join(segments[1..]) == "";
      var a := segments[0];
      assert a[|a| - 1] in a;
    }
  }

  /** Every segment decodes to an acceptable component. */
  predicate Decodes(segments: seq<string>, decode: Decoder, parts: seq<string>) {
    |parts| == |segments|
    && forall i :: 0 <= i < |segments| ==> decode(segments[i]) == Some(parts[i]) && Acceptable(parts[i])
  }

  lemma {:induction false} DecodesAll(segments: seq<string>, decode: Decoder, parts: seq<string>)
    ensures DecodeAll(segments, decode) == Some(parts) <==> Decodes(segments, decode, parts)
    decreases |segments|
  {
    if segments != [] {
      var n := |segments| - 1;
      if |parts| == n + 1 {
        DecodesAll(segments[..n], decode, parts[..n]);
        assert parts == parts[..n] + [parts[n]];
      } else if DecodeAll(segments[..n], decode).Some? {
        DecodesAll(segments[..n], decode, DecodeAll(segments[..n], decode).value);
      }
    }
  }

  /** The file published for components: the last one gets the extension and must not be hidden by it. */
  predicate FileFor(parts: seq<string>, file: seq<string>) {
    && parts != [] && |file| == |parts|
    && (forall i :: 0 <= i < |parts| - 1 ==> file[i] == parts[i])
    && file[|parts| - 1] == parts[|parts| - 1] + ".html"
    && parts[|parts| - 1] != "" && parts[|parts| - 1][0] != '.'
  }

  lemma FinishMeaning(parts: seq<string>, file: seq<string>)
    requires forall i :: 0 <= i < |parts| ==> Acceptable(parts[i])
    ensures Finish(parts) == Some(file) <==> FileFor(parts, file)
  {
    if parts != [] {
      var n := |parts| - 1;
      var last := parts[n] + EXTENSION;
      assert last[|last| - 1] == 'l' && WELL_KNOWN[|WELL_KNOWN| - 1] == 'n';
      assert last != WELL_KNOWN;
      assert last[..1] == "." <==> last[0] == '.';
      assert file == file[..|file|];
      if FileFor(parts, file) {
        assert file == parts[..n] + [last];
      }
    }
  }

  /**
   For all segments: "/a/b" is published as the file "b.html" in the directory "a", after
   decoding, exactly if every segment decodes to an acceptable component and the last
   does not begin with a dot.
   */
  lemma {:induction false} PublishedFor(segments: seq<string>, decode: Decoder, file: seq<string>)
    requires segments != [] && Pieces(segments)
    ensures Published(Join(segments), decode) == Some(file) <==>
      exists parts :: Decodes(segments, decode, parts) && FileFor(parts, file)
  {
    SegmentsJoin(segments);
    JoinEnds(segments);
    PublishedSegments(Join(segments), segments, decode, file);
  }

  lemma PublishedSegments(path: string, segments: seq<string>, decode: Decoder, file: seq<string>)
    requires Segments(Logical(path)) == segments
    ensures Published(path, decode) == Some(file) <==>
      exists parts :: Decodes(segments, decode, parts) && FileFor(parts, file)
  {
    var decoded := DecodeAll(segments, decode);
    if decoded.Some? {
      DecodesAll(segments, decode, decoded.value);
      FinishMeaning(decoded.value, file);
    }
    forall parts | Decodes(segments, decode, parts) ensures decoded == Some(parts) {
      DecodesAll(segments, decode, parts);
    }
  }

  lemma BareSegments()
    ensures Segments("") == [] && Segments("/") == [] && Segments("index") == ["index"]
  {
    SlashSegments("/");
    assert "/"[1..] == "";
    assert Piece("index");
    assert "index" + "" == "index";
    PieceSegments("index", "");
  }

  lemma {:induction false} LogicalSlash(path: string)
    requires |path| > 1 && path[|path| - 1] == '/' && Segments(path + "index") != []
    ensures Logical(path) == path + "index"
  {
  }

  /** What a trailing slash stands for. */
  lemma {:induction false} LogicalIndex(segments: seq<string>)
    requires Pieces(segments)
    ensures Segments(Logical(Join(segments) + "/")) == segments + ["index"]
  {
    if segments == [] {
      BareSegments();
      assert Join(segments) + "/" == "/";
    } else {
      var last := "index";
      var path, all := Join(segments) + "/", segments + [last];
      JoinEnds(segments);
      JoinAppend(segments, last);
      assert path + last == Join(all);
      assert Piece(last);
      SegmentsJoin(all);
      LogicalSlash(path);
    }
  }

  /** A directory's own page is its index: a trailing slash stands for "index", and so does the bare root. */
  lemma {:induction false} IndexFor(segments: seq<string>, decode: Decoder, file: seq<string>)
    requires Pieces(segments)
    ensures Published(Join(segments) + "/", decode) == Some(file) <==>
      exists parts :: Decodes(segments + ["index"], decode, parts) && FileFor(parts, file)
    ensures Published("", decode) == Published("/", decode)
  {
    LogicalIndex(segments);
    PublishedSegments(Join(segments) + "/", segments + ["index"], decode, file);
    BareSegments();
  }

  lemma {:induction false} JoinAppend(segments: seq<string>, last: string)
    ensures Join(segments + [last]) == Join(segments) + ['/'] + last
    decreases |segments|
  {
    if segments == [] {
      assert segments + [last] == [last] && [last][1..] == [];
    } else {
      assert (segments + [last])[0] == segments[0] && (segments + [last])[1..] == segments[1..] + [last];
      JoinAppend(segments[1..], last);
    }
  }

  lemma ReservedIsBlocked(c: string)
    ensures Begins(RESERVED, c) ==> BlockedDot(c)
  {
    assert RESERVED[0] == '.' && RESERVED[1] == 'l' && WELL_KNOWN[1] == 'w';
    assert Begins(RESERVED, c) ==> c[..8][0] == '.' && c[..8][1] == 'l' && c[..1] == ".";
  }

  lemma DotNames(c: string)
    requires Acceptable(c)
    ensures !Begins(RESERVED, c) && c != "." && c != ".."
  {
    ReservedIsBlocked(c);
    assert BlockedDot(".") && BlockedDot("..");
  }

  /** The extension brings no character a component may not have. */
  lemma ExtensionAcceptable(c: string)
    requires Acceptable(c) && !BlockedDot(c + EXTENSION)
    ensures Acceptable(c + EXTENSION)
  {
    assert '\0' !in EXTENSION && '/' !in EXTENSION && '\\' !in EXTENSION;
  }

  /** Every component of a published path stays in its directory and is no reserved name. */
  lemma NeverReserved(path: string, decode: Decoder, i: nat)
    requires Published(path, decode).Some? && i < |Published(path, decode).value|
    ensures
      var c := Published(path, decode).value[i];
      Acceptable(c) && !Begins(RESERVED, c) && c != "." && c != ".."
  {
    var parts := DecodeAll(Segments(Logical(path)), decode).value;
    DecodedAcceptable(Segments(Logical(path)), decode);
    var last := |parts| - 1;
    assert Acceptable(parts[i]);
    if i == last {
      ExtensionAcceptable(parts[last]);
    }
    DotNames(Published(path, decode).value[i]);
  }

  // ---- As the publication sees it ----

  /** The directory entry a published component names; reserved names are entries of their own kind. */
  function EntryName(component: string): Tree.Name {
    Tree.Name.Other(component)
  }

  function EntryNames(components: seq<string>): seq<Tree.Name> {
    seq(|components|, i requires 0 <= i < |components| => EntryName(components[i]))
  }

  /**
   The reserved entries of a site. Their spellings all begin with ".leptos-", so that a
   component that does not begin so is none of them.
   */
  predicate SpelledAs(name: Tree.Name, s: string) {
    match name
    case Control => s == ".leptos-static-policy.lock"
    case MetadataDirectory => s == ".leptos-static-metadata"
    case PublicationLock => s == ".leptos-static-publish.lock"
    case ScratchLock(_) => Begins(".leptos-static-", s)
    case Temporary(_) => Begins(RESERVED, s)
    case Other(text) => s == text
  }

  lemma ReservedSpelling(name: Tree.Name, s: string)
    ensures SpelledAs(name, s) && !name.Other? ==> Begins(RESERVED, s)
  {
    assert Begins(RESERVED, ".leptos-static-policy.lock") && Begins(RESERVED, ".leptos-static-metadata");
    assert Begins(RESERVED, ".leptos-static-publish.lock") && Begins(RESERVED, ".leptos-static-");
    assert |s| >= 15 ==> s[..15][..8] == s[..8];
  }

  /** A publication for a request path, with its lock bucket and temporaries chosen by the publisher. */
  function RequestFor(
    components: seq<string>, html: seq<Byte>, metadata: seq<Byte>, bucket: nat, htmlTemp: nat, metadataTemp: nat): Staged.Request
    requires components != []
  {
    var names := EntryNames(components);
    Staged.Request(names[..|names| - 1], names[|names| - 1], html, metadata,
                   Tree.ScratchLock(bucket), Tree.Temporary(htmlTemp), Tree.Temporary(metadataTemp))
  }

  /**
   Every published path makes a request the storage protocol accepts: whatever entry of
   the site one of its components spells is an ordinary one, and none is the control entry.
   */
  lemma PublishedIsValid(
    path: string, decode: Decoder, html: seq<Byte>, metadata: seq<Byte>, bucket: nat, htmlTemp: nat, metadataTemp: nat)
    requires Published(path, decode).Some?
    ensures
      var components := Published(path, decode).value;
      && components != []
      && (forall name, i :: 0 <= i < |components| && SpelledAs(name, components[i]) ==> name == EntryName(components[i]))
      && var q := RequestFor(components, html, metadata, bucket, htmlTemp, metadataTemp);
      Staged.ValidRequest(q) && Tree.Control !in q.parents
  {
    var components := Published(path, decode).value;
    forall name, i | 0 <= i < |components| && SpelledAs(name, components[i]) ensures name == EntryName(components[i]) {
      NeverReserved(path, decode, i);
      ReservedSpelling(name, components[i]);
    }
    var q := RequestFor(components, html, metadata, bucket, htmlTemp, metadataTemp);
    assert forall i :: 0 <= i < |q.parents| ==> q.parents[i].Other?;
  }
}
