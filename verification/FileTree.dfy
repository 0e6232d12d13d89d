/** The media tree as the index worker walks it, and the catalog paths of its files. */
module FileTree {
  import opened Basics
  import opened LikePatterns

  // ----- Names and catalog paths -----

  /** Case folding and control characters come from tables given as parameters. */
  datatype Names = Names(lower: string -> string, control: char -> bool)

  predicate SafePart(n: Names, part: string) {
    && part != "" && part != "." && part != ".."
    && '$' !in part && '/' !in part && '\\' !in part && '\0' !in part
    && forall i | 0 <= i < |part| :: !n.control(part[i])
  }

  predicate SafeParts(n: Names, parts: seq<string>) {
    forall i | 0 <= i < |parts| :: SafePart(n, parts[i])
  }

  /** The suffix from the last dot of a file name, or nothing. */
  function Extension(name: string): string {
    if name == "" then "" else if name[|name| - 1] == '.' then "." else
      var shorter := Extension(name[..|name| - 1]);
      if shorter == "" then "" else shorter + [name[|name| - 1]]
  }

  predicate IsVideo(n: Names, name: string) {
    n.lower(Extension(name)) in {".avi", ".m4v", ".mpe", ".mpeg", ".mpg", ".mov", ".mp4", ".webm", ".wmv"}
  }

  predicate Supported(n: Names, name: string) {
    || IsVideo(n, name)
    || n.lower(Extension(name)) in {".avif", ".bmp", ".gif", ".jpeg", ".jpg", ".png", ".tif", ".tiff", ".webp"}
  }

  /** part can be a name in a catalog path: no marker of this or the parent directory, no separator of paths or
      catalog paths, no control character. */
  ghost predicate Harmless(n: Names, part: string) {
    && part != "" && part != "." && part != ".."
    && forall c | c in part :: c != '$' && c != '/' && c != '\\' && c as int != 0 && !n.control(c)
  }

  lemma HarmlessIff(n: Names, part: string)
    ensures Harmless(n, part) <==> SafePart(n, part)
  {
    assert forall i | 0 <= i < |part| :: part[i] in part;
  }

  /** ext is the name's extension: its last dot and what follows, or nothing without a dot. */
  ghost predicate EndsWith(name: string, ext: string) {
    if '.' !in name then ext == ""
    else 0 < |ext| <= |name| && name[|name| - |ext|..] == ext && ext[0] == '.' && '.' !in ext[1..]
  }

  lemma LongerName(shorter: string, ext: string, last: char)
    requires EndsWith(shorter, ext) && last != '.'
    ensures EndsWith(shorter + [last], if ext == "" then "" else ext + [last])
  {
    var name := shorter + [last];
    if ext != "" {
      assert (ext + [last])[1..] == ext[1..] + [last];
      assert name[|name| - |ext| - 1..] == shorter[|shorter| - |ext|..] + [last];
    }
  }

  lemma {:induction false} ExtensionEnds(name: string)
    ensures EndsWith(name, Extension(name))
  {
    if name != "" {
      var shorter, last := name[..|name| - 1], name[|name| - 1];
      assert name == shorter + [last];
      if last == '.' {
        assert last in name && name[|name| - 1..] == ".";
      } else {
        ExtensionEnds(shorter);
        LongerName(shorter, Extension(shorter), last);
      }
    }
  }

  lemma NoDotAfter(name: string, ext: string, k: int)
    requires EndsWith(name, ext) && ext != "" && |name| - |ext| < k < |name|
    ensures name[k] != '.'
  {
    assert name[k] == ext[1..][k - (|name| - |ext|) - 1];
  }

  lemma OneExtension(name: string, a: string, b: string)
    requires EndsWith(name, a) && EndsWith(name, b)
    ensures a == b
  {
    if a != "" && |b| < |a| { NoDotAfter(name, a, |name| - |b|); }
    if b != "" && |a| < |b| { NoDotAfter(name, b, |name| - |a|); }
  }

  /** A media file by its folded extension; and a video. */
  ghost predicate Media(n: Names, name: string) {
    exists ext :: EndsWith(name, ext) &&
      n.lower(ext) in {".avif", ".avi", ".bmp", ".gif", ".jpeg", ".jpg", ".m4v", ".mpe", ".mpeg", ".mpg", ".mov",
                       ".mp4", ".png", ".tif", ".tiff", ".webm", ".webp", ".wmv"}
  }

  ghost predicate Video(n: Names, name: string) {
    exists ext :: EndsWith(name, ext) &&
      n.lower(ext) in {".avi", ".m4v", ".mpe", ".mpeg", ".mpg", ".mov", ".mp4", ".webm", ".wmv"}
  }

  lemma MediaIff(n: Names, name: string)
    ensures Media(n, name) <==> Supported(n, name)
    ensures Video(n, name) <==> IsVideo(n, name)
  {
    ExtensionEnds(name);
    forall ext | EndsWith(name, ext) ensures ext == Extension(name) { OneExtension(name, ext, Extension(name)); }
  }

  function Split(s: string): (parts: seq<string>)
    ensures parts != []
  {
    if s == "" then [""]
    else if s[0] == '$' then [""] + Split(s[1..])
    else
      var rest := Split(s[1..]);
      [[s[0]] + rest[0]] + rest[1..]
  }

  lemma {:induction false} SplitJoin(s: string)
    ensures Join("$", Split(s)) == s
  {
    if s != "" {
      SplitJoin(s[1..]);
      var rest := Split(s[1..]);
      if s[0] == '$' {
        assert Split(s)[1..] == rest;
      } else if |rest| > 1 {
        assert Split(s)[1..] == rest[1..];
      }
    }
  }

  lemma {:induction false} SplitPart(part: string, tail: string)
    requires '$' !in part
    ensures Split(part) == [part] && Split(part + "$" + tail) == [part] + Split(tail)
  {
    if part == "" {
      assert (part + "$" + tail)[1..] == tail;
    } else {
      var p := part[1..];
      SplitPart(p, tail);
      assert (part + "$" + tail)[1..] == p + "$" + tail;
      assert [part[0]] + p == part;
    }
  }

  /** Joining names with '$' is undone by splitting, so different files have different paths. */
  lemma {:induction false} JoinSplit(parts: seq<string>)
    requires parts != [] && forall i | 0 <= i < |parts| :: '$' !in parts[i]
    ensures Split(Join("$", parts)) == parts
  {
    SplitPart(parts[0], Join("$", parts[1..]));
    if |parts| > 1 {
      JoinSplit(parts[1..]);
      assert [parts[0]] + parts[1..] == parts;
    }
  }

  lemma JoinInjective(n: Names, a: seq<string>, b: seq<string>)
    requires a != [] && b != [] && SafeParts(n, a) && SafeParts(n, b) && Join("$", a) == Join("$", b)
    ensures a == b
  {
    JoinSplit(a);
    JoinSplit(b);
  }

  lemma {:induction false} JoinAppend(a: seq<string>, b: seq<string>)
    requires a != [] && b != []
    ensures Join("$", a + b) == Join("$", a) + "$" + Join("$", b)
  {
    if |a| > 1 {
      JoinAppend(a[1..], b);
      assert (a + b)[1..] == a[1..] + b;
    } else {
      assert (a + b)[1..] == b;
    }
  }

  // ----- Trees -----

  /** A directory entry; a directory may be unreadable and a file may fail to stat. */
  datatype Entry = Dir(readable: bool, listing: Listing) | File(size: int, statOk: bool) | Link | Special

  /** The entries of a directory in lexical order. */
  datatype Listing = End | More(name: string, entry: Entry, rest: Listing)

  datatype MediaFile = MediaFile(path: string, name: string, size: int)

  predicate Listed(l: Listing, name: string) {
    l.More? && (l.name == name || Listed(l.rest, name))
  }

  function EntryOf(l: Listing, name: string): Entry
    requires Listed(l, name)
  {
    if l.name == name then l.entry else EntryOf(l.rest, name)
  }

  /** Sibling names are distinct, at every level. */
  predicate Proper(l: Listing) {
    l.More? ==> !Listed(l.rest, l.name) && Proper(l.rest) && (l.entry.Dir? ==> Proper(l.entry.listing))
  }

  // ----- What the walk finds -----

  /** A directory at this depth is not entered. */
  predicate TooDeep(max: Option<int>, depth: int) {
    max.Some? && depth >= max.value
  }

  /** The files found under a listing whose entries have the given prefix and depth. */
  function Found(n: Names, l: Listing, prefix: seq<string>, depth: int, max: Option<int>): seq<MediaFile>
    decreases l, 0
  {
    match l
    case End => []
    case More(name, entry, rest) => FoundAt(n, name, entry, prefix, depth, max) + Found(n, rest, prefix, depth, max)
  }

  function FoundAt(n: Names, name: string, entry: Entry, prefix: seq<string>, depth: int,
                   max: Option<int>): seq<MediaFile>
    decreases entry, 1
  {
    var parts := prefix + [name];
    if !SafeParts(n, parts) then []
    else match entry
      case Dir(readable, l) => if TooDeep(max, depth) || !readable then [] else Found(n, l, parts, depth + 1, max)
      case File(size, ok) => if Supported(n, name) && ok then [MediaFile(Join("$", parts), name, size)] else []
      case _ => []
  }

  /** The errors counted on the way: directories that cannot be read, files that cannot be sized. */
  function Errors(n: Names, l: Listing, prefix: seq<string>, depth: int, max: Option<int>): nat
    decreases l, 0
  {
    match l
    case End => 0
    case More(name, entry, rest) => ErrorsAt(n, name, entry, prefix, depth, max) + Errors(n, rest, prefix, depth, max)
  }

  function ErrorsAt(n: Names, name: string, entry: Entry, prefix: seq<string>, depth: int, max: Option<int>): nat
    decreases entry, 1
  {
    var parts := prefix + [name];
    if !SafeParts(n, parts) then 0
    else match entry
      case Dir(readable, l) =>
        if TooDeep(max, depth) then 0 else if !readable then 1 else Errors(n, l, parts, depth + 1, max)
      case File(_, ok) => if Supported(n, name) && !ok then 1 else 0
      case _ => 0
  }

  // ----- What there is to find -----

  /** The size of the supported regular file that the relative name path leads to through safe
      names and readable directories that are not too deep. */
  ghost function Leads(n: Names, l: Listing, route: seq<string>, depth: int, max: Option<int>): Option<int>
    decreases |route|
  {
    if route == [] || !Listed(l, route[0]) || !Harmless(n, route[0]) then None
    else match EntryOf(l, route[0])
      case Dir(readable, inner) =>
        if |route| > 1 && readable && !TooDeep(max, depth) then Leads(n, inner, route[1..], depth + 1, max) else None
      case File(size, ok) => if |route| == 1 && ok && Media(n, route[0]) then Some(size) else None
      case _ => None
  }

  /** f is the file at the end of a route below the prefix. */
  ghost predicate Reached(n: Names, l: Listing, prefix: seq<string>, depth: int, max: Option<int>, route: seq<string>,
                          f: MediaFile) {
    && route != []
    && Leads(n, l, route, depth, max) == Some(f.size)
    && f.path == Join("$", prefix + route) && f.name == route[|route| - 1]
  }

  lemma SafeStep(n: Names, prefix: seq<string>, name: string)
    requires SafeParts(n, prefix)
    ensures SafeParts(n, prefix + [name]) <==> SafePart(n, name)
  {
    assert (prefix + [name])[|prefix|] == name;
  }

  lemma FileReached(n: Names, l: Listing, prefix: seq<string>, depth: int, max: Option<int>, f: MediaFile)
    requires l.More? && !l.entry.Dir? && SafeParts(n, prefix)
    requires f in FoundAt(n, l.name, l.entry, prefix, depth, max)
    ensures Reached(n, l, prefix, depth, max, [l.name], f)
  {
    SafeStep(n, prefix, l.name);
    HarmlessIff(n, l.name);
    MediaIff(n, l.name);
  }

  lemma DirReached(n: Names, l: Listing, prefix: seq<string>, depth: int, max: Option<int>, inner: seq<string>,
                   f: MediaFile)
    requires l.More? && l.entry.Dir? && SafeParts(n, prefix)
    requires f in FoundAt(n, l.name, l.entry, prefix, depth, max)
    requires Reached(n, l.entry.listing, prefix + [l.name], depth + 1, max, inner, f)
    ensures Reached(n, l, prefix, depth, max, [l.name] + inner, f)
  {
    SafeStep(n, prefix, l.name);
    HarmlessIff(n, l.name);
    assert ([l.name] + inner)[1..] == inner;
    assert prefix + ([l.name] + inner) == (prefix + [l.name]) + inner;
  }

  /** Every file found is at the end of a route, under one of the listing's names. */
  lemma {:induction false} FoundIsReached(n: Names, l: Listing, prefix: seq<string>, depth: int, max: Option<int>,
                                          f: MediaFile)
    returns (route: seq<string>)
    requires Proper(l) && SafeParts(n, prefix) && f in Found(n, l, prefix, depth, max)
    ensures Reached(n, l, prefix, depth, max, route, f) && Listed(l, route[0])
    decreases l
  {
    if f in FoundAt(n, l.name, l.entry, prefix, depth, max) {
      if l.entry.Dir? {
        var inner := FoundIsReached(n, l.entry.listing, prefix + [l.name], depth + 1, max, f);
        DirReached(n, l, prefix, depth, max, inner, f);
        route := [l.name] + inner;
      } else {
        FileReached(n, l, prefix, depth, max, f);
        route := [l.name];
      }
    } else {
      route := FoundIsReached(n, l.rest, prefix, depth, max, f);
      assert EntryOf(l, route[0]) == EntryOf(l.rest, route[0]);
    }
  }

  /** Every file at the end of a route is found. */
  lemma {:induction false} ReachedIsFound(n: Names, l: Listing, prefix: seq<string>, depth: int, max: Option<int>,
                                          route: seq<string>, f: MediaFile)
    requires SafeParts(n, prefix) && Reached(n, l, prefix, depth, max, route, f)
    ensures f in Found(n, l, prefix, depth, max)
    decreases l
  {
    SafeStep(n, prefix, l.name);
    HarmlessIff(n, l.name);
    MediaIff(n, l.name);
    if l.name == route[0] {
      if l.entry.Dir? {
        assert prefix + route == (prefix + [l.name]) + route[1..];
        ReachedIsFound(n, l.entry.listing, prefix + [l.name], depth + 1, max, route[1..], f);
      } else {
        assert route == [l.name];
      }
    } else {
      assert EntryOf(l, route[0]) == EntryOf(l.rest, route[0]);
      ReachedIsFound(n, l.rest, prefix, depth, max, route, f);
    }
  }

  // ----- Paths are distinct and under the root -----

  ghost predicate DistinctPaths(fs: seq<MediaFile>) {
    forall i, j | 0 <= i < j < |fs| :: fs[i].path != fs[j].path
  }

  lemma RouteSafe(n: Names, l: Listing, route: seq<string>, depth: int, max: Option<int>)
    requires Leads(n, l, route, depth, max).Some?
    ensures SafeParts(n, route)
    decreases |route|
  {
    HarmlessIff(n, route[0]);
    if |route| > 1 {
      RouteSafe(n, EntryOf(l, route[0]).listing, route[1..], depth + 1, max);
      assert forall i | 0 < i < |route| :: route[i] == route[1..][i - 1];
    }
  }

  /** The name a found path continues with after its prefix. */
  lemma FoundUnder(n: Names, l: Listing, prefix: seq<string>, depth: int, max: Option<int>, f: MediaFile)
    returns (route: seq<string>)
    requires Proper(l) && SafeParts(n, prefix) && f in Found(n, l, prefix, depth, max)
    ensures route != [] && SafeParts(n, prefix + route) && f.path == Join("$", prefix + route) && Listed(l, route[0])
  {
    route := FoundIsReached(n, l, prefix, depth, max, f);
    RouteSafe(n, l, route, depth, max);
  }

  lemma {:induction false} FoundAtUnder(n: Names, name: string, entry: Entry, prefix: seq<string>, depth: int,
                                        max: Option<int>, f: MediaFile)
    returns (route: seq<string>)
    requires SafeParts(n, prefix) && (entry.Dir? ==> Proper(entry.listing))
    requires f in FoundAt(n, name, entry, prefix, depth, max)
    ensures route != [] && route[0] == name && SafeParts(n, prefix + route) && f.path == Join("$", prefix + route)
  {
    route := [name];
    if entry.Dir? {
      var inner := FoundUnder(n, entry.listing, prefix + [name], depth + 1, max, f);
      route := [name] + inner;
      assert prefix + route == (prefix + [name]) + inner;
    }
  }

  lemma {:induction false} FoundDistinct(n: Names, l: Listing, prefix: seq<string>, depth: int, max: Option<int>)
    requires Proper(l) && SafeParts(n, prefix)
    ensures DistinctPaths(Found(n, l, prefix, depth, max))
    decreases l
  {
    if l.More? {
      var first, rest := FoundAt(n, l.name, l.entry, prefix, depth, max), Found(n, l.rest, prefix, depth, max);
      FoundDistinct(n, l.rest, prefix, depth, max);
      if l.entry.Dir? && SafeParts(n, prefix + [l.name]) {
        FoundDistinct(n, l.entry.listing, prefix + [l.name], depth + 1, max);
      }
      forall f, g | f in first && g in rest ensures f.path != g.path {
        var a := FoundAtUnder(n, l.name, l.entry, prefix, depth, max, f);
        var b := FoundUnder(n, l.rest, prefix, depth, max, g);
        assert (prefix + a)[|prefix|] == a[0] && (prefix + b)[|prefix|] == b[0];
        if f.path == g.path { JoinInjective(n, prefix + a, prefix + b); }
      }
      var all := first + rest;
      forall i, j | 0 <= i < j < |all| ensures all[i].path != all[j].path {
        if i < |first| && j >= |first| { assert all[i] in first && all[j] in rest; }
      }
    }
  }

  /** Every found path lies below the path of its prefix. */
  lemma FoundBelow(n: Names, l: Listing, prefix: seq<string>, depth: int, max: Option<int>, f: MediaFile)
    requires Proper(l) && SafeParts(n, prefix) && f in Found(n, l, prefix, depth, max)
    ensures InSubtree(f.path, Join("$", prefix))
  {
    var route := FoundUnder(n, l, prefix, depth, max, f);
    if prefix != [] {
      JoinAppend(prefix, route);
      assert Join("$", prefix) + "$" <= f.path;
    }
  }
}
