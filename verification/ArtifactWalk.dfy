/**
 Finding release artifacts: a walk over a directory tree with an explicit stack, which never enters a subdirectory
 named win-unpacked, then a sort by relative path; and the check of the update metadata against what was found.
 */
module ArtifactWalk {
  import opened Common
  import opened Sorting

  datatype Entry = File(name: string, bytes: nat) | Folder(name: string, entries: seq<Entry>)

  /** A path relative to the output directory, as its names from the top. */
  type Path = seq<string>

  datatype Artifact = Artifact(path: Path, bytes: nat)

  // ------------------------------------------------------------------ which files are wanted

  function Lower(c: char): char { if 'A' <= c <= 'Z' then c - 'A' + 'a' else c }

  predicate EndsWith(name: string, suffix: string) {
    |name| >= |suffix| && forall i :: 0 <= i < |suffix| ==> Lower(name[|name| - |suffix| + i]) == suffix[i]
  }

  predicate Wanted(name: string) {
    EndsWith(name, ".exe") || EndsWith(name, ".blockmap") || EndsWith(name, ".yml") || EndsWith(name, ".yaml")
  }

  ghost function Lowered(s: string): (t: string)
    ensures |t| == |s|
  {
    seq(|s|, i requires 0 <= i < |s| => if 'A' <= s[i] <= 'Z' then (s[i] as int + 32) as char else s[i])
  }

  lemma LoweredAt(s: string, i: nat)
    requires i < |s|
    ensures Lowered(s)[i] == Lower(s[i])
  {
  }

  lemma EndsExactly(name: string, suffix: string)
    ensures EndsWith(name, suffix) <==> |name| >= |suffix| && Lowered(name[|name| - |suffix|..]) == suffix
  {
    if |name| >= |suffix| {
      var tail := name[|name| - |suffix|..];
      forall i | 0 <= i < |suffix| ensures Lowered(tail)[i] == Lower(name[|name| - |suffix| + i]) {
        LoweredAt(tail, i);
      }
    }
  }

  /** A file is wanted exactly when its name, in small letters, ends in one of the four extensions. */
  lemma WantedExactly(name: string)
    ensures Wanted(name) <==>
      exists n :: 0 <= n <= |name| && Lowered(name[n..]) in {".exe", ".blockmap", ".yml", ".yaml"}
  {
    EndsExactly(name, ".exe");
    EndsExactly(name, ".blockmap");
    EndsExactly(name, ".yml");
    EndsExactly(name, ".yaml");
  }

  const SKIPPED := "win-unpacked"

  /** The file at a path is wanted and every folder on the way may be entered. */
  ghost predicate Reaches(entries: seq<Entry>, path: Path, bytes: nat)
    decreases |path|, 1
  {
    exists e :: e in entries && ReachesIn(e, path, bytes)
  }

  ghost predicate ReachesIn(e: Entry, path: Path, bytes: nat)
    decreases |path|, 0
  {
    && |path| > 0 && path[0] == e.name
    && match e
      case File(name, size) => |path| == 1 && size == bytes && Wanted(name)
      case Folder(name, entries) => name != SKIPPED && Reaches(entries, path[1..], bytes)
  }

  /** A directory holds no two entries of one name. */
  ghost predicate WellFormed(entries: seq<Entry>) {
    && (forall i, j :: 0 <= i < j < |entries| ==> entries[i].name != entries[j].name)
    && (forall i :: 0 <= i < |entries| ==> WellFormedIn(entries[i]))
  }

  ghost predicate WellFormedIn(e: Entry) {
    match e
    case File(_, _) => true
    case Folder(_, entries) => WellFormed(entries)
  }

  // ------------------------------------------------------------------ what a walk owes

  function Listing(at: Path, entries: seq<Entry>): multiset<Artifact>
    decreases entries
  {
    if |entries| == 0 then multiset{}
    else Listing(at, entries[..|entries| - 1]) + ListingOf(at, entries[|entries| - 1])
  }

  function ListingOf(at: Path, e: Entry): multiset<Artifact>
    decreases e
  {
    match e
    case File(name, bytes) => if Wanted(name) then multiset{Artifact(at + [name], bytes)} else multiset{}
    case Folder(name, entries) => if name == SKIPPED then multiset{} else Listing(at + [name], entries)
  }

  ghost predicate Under(at: Path, a: Artifact) { |a.path| >= |at| && a.path[..|at|] == at }

  /** Each artifact is owed once, exactly when its path reaches it. */
  lemma {:induction false} ListingIsReachable(at: Path, entries: seq<Entry>, a: Artifact)
    requires WellFormed(entries)
    ensures Listing(at, entries)[a] == if Under(at, a) && Reaches(entries, a.path[|at|..], a.bytes) then 1 else 0
    decreases entries
  {
    if |entries| != 0 {
      var n := |entries| - 1;
      var rest, e := entries[..n], entries[n];
      assert entries == rest + [e];
      ListingIsReachable(at, rest, a);
      EntryIsReachable(at, e, a);
      if Under(at, a) {
        var rel := a.path[|at|..];
        OneNameOneEntry(rest, e, rel, a.bytes);
        assert Reaches(entries, rel, a.bytes) <==> Reaches(rest, rel, a.bytes) || ReachesIn(e, rel, a.bytes);
      }
    }
  }

  lemma OneNameOneEntry(rest: seq<Entry>, e: Entry, path: Path, bytes: nat)
    requires forall i :: 0 <= i < |rest| ==> rest[i].name != e.name
    ensures !(Reaches(rest, path, bytes) && ReachesIn(e, path, bytes))
  {
    forall other | other in rest && ReachesIn(e, path, bytes) ensures !ReachesIn(other, path, bytes) {
      var i :| 0 <= i < |rest| && rest[i] == other;
    }
  }

  lemma {:induction false} EntryIsReachable(at: Path, e: Entry, a: Artifact)
    requires WellFormedIn(e)
    ensures ListingOf(at, e)[a] == if Under(at, a) && ReachesIn(e, a.path[|at|..], a.bytes) then 1 else 0
    decreases e
  {
    var below := at + [e.name];
    if Under(at, a) && |a.path| > |at| {
      assert a.path[..|at| + 1] == at + [a.path[|at|]];
      assert a.path[|at|..][1..] == a.path[|at| + 1..];
      assert a.path[|at|..][0] == a.path[|at|];
    }
    if Under(below, a) { assert a.path[..|at|] == a.path[..|at| + 1][..|at|] == at; }
    match e
    case File(name, bytes) =>
      if Under(at, a) && ReachesIn(e, a.path[|at|..], a.bytes) { assert a.path == at + [name]; }
    case Folder(name, entries) => ListingIsReachable(below, entries, a);
  }

  // ------------------------------------------------------------------ sorting

  /** Artifacts by the comparison of their relative paths. */
  function ByPath(before: (Path, Path) -> bool): (Artifact, Artifact) -> bool {
    (a: Artifact, b: Artifact) => before(a.path, b.path)
  }

  lemma ByPathOrders(before: (Path, Path) -> bool)
    requires Order(before)
    ensures Order(ByPath(before))
  {
    var onPath := ByPath(before);
    forall a, b ensures onPath(a, b) || onPath(b, a) {
      assert before(a.path, b.path) || before(b.path, a.path);
    }
    forall a, b, c | onPath(a, b) && onPath(b, c) ensures onPath(a, c) {
      assert before(a.path, b.path) && before(b.path, c.path);
    }
  }

  // ------------------------------------------------------------------ the walk

  datatype Visit = Visit(at: Path, entries: seq<Entry>)

  function Owed(stack: seq<Visit>): multiset<Artifact> {
    if |stack| == 0 then multiset{}
    else Owed(stack[..|stack| - 1]) + Listing(stack[|stack| - 1].at, stack[|stack| - 1].entries)
  }

  function Size(entries: seq<Entry>): nat {
    if |entries| == 0 then 0 else Size(entries[..|entries| - 1]) + SizeOf(entries[|entries| - 1])
  }

  function SizeOf(e: Entry): nat { if e.File? then 0 else 1 + Size(e.entries) }

  function Work(stack: seq<Visit>): nat {
    if |stack| == 0 then 0 else Work(stack[..|stack| - 1]) + 1 + Size(stack[|stack| - 1].entries)
  }

  lemma Pushed(stack: seq<Visit>, v: Visit)
    ensures Owed(stack + [v]) == Owed(stack) + Listing(v.at, v.entries)
    ensures Work(stack + [v]) == Work(stack) + 1 + Size(v.entries)
  {
    assert (stack + [v])[..|stack|] == stack;
  }

  lemma OneMore(at: Path, entries: seq<Entry>, i: nat)
    requires i < |entries|
    ensures Listing(at, entries[..i + 1]) == Listing(at, entries[..i]) + ListingOf(at, entries[i])
    ensures Size(entries[..i + 1]) == Size(entries[..i]) + SizeOf(entries[i])
  {
    assert entries[..i + 1][..i] == entries[..i];
  }

  /** One directory entry: a wanted file is found, a folder goes on the stack unless it is skipped. */
  method ReadEntry(at: Path, entry: Entry, found: seq<Artifact>, stack: seq<Visit>)
    returns (found': seq<Artifact>, stack': seq<Visit>)
    ensures multiset(found') + Owed(stack') == multiset(found) + Owed(stack) + ListingOf(at, entry)
    ensures Work(stack') <= Work(stack) + SizeOf(entry)
  {
    hide Owed, Work, Wanted, Listing, Size;
    found', stack' := found, stack;
    if entry.Folder? {
      if entry.name != SKIPPED {
        Pushed(stack, Visit(at + [entry.name], entry.entries));
        stack' := stack + [Visit(at + [entry.name], entry.entries)];
      }
    } else if Wanted(entry.name) {
      found' := found + [Artifact(at + [entry.name], entry.bytes)];
    }
  }

  method ReadDirectory(visit: Visit, found: seq<Artifact>, stack: seq<Visit>)
    returns (found': seq<Artifact>, stack': seq<Visit>)
    ensures multiset(found') + Owed(stack') == multiset(found) + Owed(stack) + Listing(visit.at, visit.entries)
    ensures Work(stack') <= Work(stack) + Size(visit.entries)
  {
    hide Owed, Work, Wanted, ListingOf, SizeOf;
    found', stack' := found, stack;
    var entries := visit.entries;
    for i := 0 to |entries|
      invariant multiset(found') + Owed(stack') == multiset(found) + Owed(stack) + Listing(visit.at, entries[..i])
      invariant Work(stack') <= Work(stack) + Size(entries[..i])
    {
      OneMore(visit.at, entries, i);
      found', stack' := ReadEntry(visit.at, entries[i], found', stack');
    }
    assert entries[..|entries|] == entries;
  }

  /** The artifacts of an output directory, None if there is none: exactly the wanted files that can be reached
      without entering a skipped folder, each once, in path order. */
  method ListArtifacts(output: Option<seq<Entry>>, before: (Path, Path) -> bool) returns (found: seq<Artifact>)
    requires Order(before)
    ensures Sorted(found, ByPath(before))
    ensures multiset(found) == if output.None? then multiset{} else Listing([], output.value)
  {
    if output.None? { return []; }
    found := [];
    var stack := [Visit([], output.value)];
    while |stack| > 0
      invariant multiset(found) + Owed(stack) == Listing([], output.value)
      decreases Work(stack)
    {
      var current := stack[|stack| - 1];
      stack := stack[..|stack| - 1];
      found, stack := ReadDirectory(current, found, stack);
    }
    ByPathOrders(before);
    hide Order;
    SortBySorts(found, ByPath(before));
    found := SortBy(found, ByPath(before));
  }

  /** So on a well-formed tree the result holds an artifact exactly when it is reachable, and no artifact twice. */
  lemma ArtifactsAreReachable(entries: seq<Entry>, found: seq<Artifact>, a: Artifact)
    requires WellFormed(entries) && multiset(found) == Listing([], entries)
    ensures a in found <==> Reaches(entries, a.path, a.bytes)
    ensures Distinct(found)
  {
    ListingIsReachable([], entries, a);
    assert a.path[0..] == a.path;
    assert a in found <==> a in multiset(found);
    forall i, j | 0 <= i < j < |found| ensures found[i] != found[j] {
      ListingIsReachable([], entries, found[i]);
      if found[i] == found[j] { Twice(found, i, j); }
    }
  }

  lemma Twice(s: seq<Artifact>, i: nat, j: nat)
    requires i < j < |s| && s[i] == s[j]
    ensures multiset(s)[s[i]] >= 2
  {
    assert s == s[..i] + [s[i]] + s[i + 1..j] + [s[j]] + s[j + 1..];
  }

  /** Nothing below a skipped folder is listed, at any depth. */
  lemma {:induction false} NothingBelowSkipped(entries: seq<Entry>, path: Path, bytes: nat, k: nat)
    requires Reaches(entries, path, bytes) && k + 1 < |path|
    ensures path[k] != "win-unpacked"
    decreases |path|
  {
    var e :| e in entries && ReachesIn(e, path, bytes);
    if k > 0 { NothingBelowSkipped(e.entries, path[1..], bytes, k - 1); }
  }

  // ------------------------------------------------------------------ the update metadata

  /** The relative path as text, with the platform's separator. */
  function Joined(path: Path, separator: char): string {
    if |path| == 0 then ""
    else if |path| == 1 then path[0]
    else Joined(path[..|path| - 1], separator) + [separator] + path[|path| - 1]
  }

  function Slashes(text: string): (s: string)
    ensures |s| == |text| && forall i :: 0 <= i < |s| ==> s[i] == if text[i] == '\\' then '/' else text[i]
  {
    seq(|text|, i requires 0 <= i < |text| => if text[i] == '\\' then '/' else text[i])
  }

  /** The parsed metadata's path: None if it is not a string. */
  datatype Metadata = Metadata(path: Option<string>)

  /** None without metadata; otherwise whether an artifact lies at the path it names. */
  method MetadataMatchesArtifact(latest: Option<Metadata>, artifacts: seq<Artifact>, separator: char)
    returns (matches: Option<bool>)
    ensures matches.None? <==> latest.None?
    ensures matches == Some(true) <==>
      && latest.Some? && latest.value.path.Some? && latest.value.path.value != ""
      && exists a :: a in artifacts && Slashes(Joined(a.path, separator)) == Slashes(latest.value.path.value)
  {
    if latest.None? { return None; }
    if latest.value.path.None? || latest.value.path.value == "" { return Some(false); }
    for i := 0 to |artifacts|
      invariant forall k :: 0 <= k < i ==>
        Slashes(Joined(artifacts[k].path, separator)) != Slashes(latest.value.path.value)
    {
      if Slashes(Joined(artifacts[i].path, separator)) == Slashes(latest.value.path.value) { return Some(true); }
    }
    matches := Some(false);
  }

  /** The comparison does not depend on the platform the artifacts were listed on. */
  lemma {:induction false} SeparatorsDoNotMatter(path: Path)
    ensures Slashes(Joined(path, '\\')) == Slashes(Joined(path, '/'))
  {
    if |path| > 1 {
      var n := |path| - 1;
      SeparatorsDoNotMatter(path[..n]);
      var a, b := Joined(path[..n], '\\'), Joined(path[..n], '/');
      assert Slashes(a) == Slashes(b);
      SlashesConcat(a, ['\\'] + path[n]);
      SlashesConcat(b, ['/'] + path[n]);
      assert a + ['\\'] + path[n] == a + (['\\'] + path[n]);
      assert b + ['/'] + path[n] == b + (['/'] + path[n]);
      assert Slashes(['\\'] + path[n]) == Slashes(['/'] + path[n]);
    }
  }

  lemma SlashesConcat(a: string, b: string)
    ensures Slashes(a + b) == Slashes(a) + Slashes(b)
  {
  }

  /** The names between the separators of a text. */
  ghost function Split(text: string, separator: char): (names: seq<string>)
    ensures |names| > 0
  {
    if |text| == 0 then [""]
    else
      var n := |text| - 1;
      var names := Split(text[..n], separator);
      if text[n] == separator then names + [""]
      else names[|names| - 1 := names[|names| - 1] + [text[n]]]
  }

  lemma {:induction false} SplitMore(text: string, separator: char, name: string)
    requires separator !in name
    ensures var names := Split(text, separator);
      Split(text + name, separator) == names[|names| - 1 := names[|names| - 1] + name]
  {
    if |name| == 0 {
      assert text + name == text;
      var names := Split(text, separator);
      assert names[|names| - 1] + name == names[|names| - 1];
    } else {
      var n, longer := |name| - 1, text + name;
      SplitMore(text, separator, name[..n]);
      assert longer[..|longer| - 1] == text + name[..n];
      var names := Split(text, separator);
      assert names[|names| - 1] + name == names[|names| - 1] + name[..n] + [name[n]];
    }
  }

  lemma SplitSnoc(text: string, separator: char, name: string)
    requires separator !in name
    ensures Split(text + [separator] + name, separator) == Split(text, separator) + [name]
  {
    assert (text + [separator])[..|text|] == text;
    SplitMore(text + [separator], separator, name);
    hide Split;
    assert "" + name == name;
  }

  /** Splitting a joined path gives its names back. */
  lemma {:induction false} SplitJoined(path: Path, separator: char)
    requires |path| > 0 && forall i :: 0 <= i < |path| ==> separator !in path[i]
    ensures Split(Joined(path, separator), separator) == path
  {
    var n := |path| - 1;
    if n == 0 {
      SplitMore("", separator, path[0]);
      assert "" + path[0] == path[0];
    } else {
      hide Split;
      SplitJoined(path[..n], separator);
      SplitSnoc(Joined(path[..n], separator), separator, path[n]);
      assert path == path[..n] + [path[n]];
    }
  }

  lemma JoinedSnoc(names: seq<string>, name: string, separator: char)
    requires |names| > 0
    ensures Joined(names + [name], separator) == Joined(names, separator) + [separator] + name
  {
    assert (names + [name])[..|names|] == names;
  }

  lemma JoinedLonger(names: seq<string>, c: char, separator: char)
    requires |names| > 0
    ensures Joined(names[|names| - 1 := names[|names| - 1] + [c]], separator) == Joined(names, separator) + [c]
  {
    var n := |names| - 1;
    var longer := names[n := names[n] + [c]];
    assert longer[..n] == names[..n];
    assert Joined(names[..n], separator) + [separator] + names[n] + [c] ==
      Joined(names[..n], separator) + [separator] + (names[n] + [c]);
  }

  lemma {:induction false} JoinedSplit(text: string, separator: char)
    ensures Joined(Split(text, separator), separator) == text
  {
    if |text| > 0 {
      var n := |text| - 1;
      JoinedSplit(text[..n], separator);
      var names := Split(text[..n], separator);
      JoinedSnoc(names, "", separator);
      JoinedLonger(names, text[n], separator);
      assert text == text[..n] + [text[n]];
      assert text[..n] + [separator] + "" == text[..n] + [separator];
    }
  }

  predicate IsSlash(c: char) { c == '/' || c == '\\' }

  /** A path of names without slashes matches the metadata exactly when the metadata, split at its slashes of either
      kind, is that path. */
  lemma MetadataNamesTheFile(path: Path, separator: char, text: string)
    requires |path| > 0 && IsSlash(separator)
    requires forall i, c :: 0 <= i < |path| && c in path[i] ==> !IsSlash(c)
    ensures Slashes(Joined(path, separator)) == Slashes(text) <==> Split(Slashes(text), '/') == path
  {
    SeparatorsDoNotMatter(path);
    PlainPath(path);
    SplitJoined(path, '/');
    JoinedSplit(Slashes(text), '/');
  }

  lemma {:induction false} PlainPath(path: Path)
    requires forall i, c :: 0 <= i < |path| && c in path[i] ==> !IsSlash(c)
    ensures Slashes(Joined(path, '/')) == Joined(path, '/')
  {
    if |path| > 0 {
      var n := |path| - 1;
      forall i, c | 0 <= i < n && c in path[..n][i] ensures !IsSlash(c) { assert c in path[i]; }
      PlainPath(path[..n]);
      forall k | 0 <= k < |path[n]| ensures !IsSlash(path[n][k]) { assert path[n][k] in path[n]; }
      assert Slashes(path[n]) == path[n];
      SlashesConcat(Joined(path[..n], '/') + ['/'], path[n]);
      SlashesConcat(Joined(path[..n], '/'), ['/']);
    }
  }
}
