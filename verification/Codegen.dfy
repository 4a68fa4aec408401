/**
 * Writing generated files against a ledger of the files written before: what
 * a run creates, updates, deletes and leaves alone, and what a check reports.
 * The file system is a map from absolute path to content.
 */
module Codegen {
  import opened Text
  import opened Sorting

  type Path = string

  type Files = map<Path, string>

  /** Path resolution against the working directory, and the order the ledger is written in. */
  datatype Paths = Paths(resolve: string -> Path, relative: Path -> string, le: (string, string) -> bool)

  /** A relative path resolves back to the path it was made from. */
  ghost predicate Sound(ps: Paths) { (forall p :: ps.resolve(ps.relative(p)) == p) && StrictOrder(ps.le) }

  datatype Generated = Generated(path: Path, content: string)

  datatype Status = Created | Updated | Unchanged | Deleted | Drifted

  datatype FileResult = FileResult(path: Path, content: string, status: Status)

  const HEADER := "// @generated by " + "@di-framework/codegen \U{2014} do not edit."

  predicate HasOwnershipHeader(content: string) { HEADER <= TrimStart(content) }

  /** The text begins, behind white space, with the header. */
  ghost predicate BeginsWithHeader(content: string) {
    exists n: nat :: n <= |content| && Blank(content[..n]) && HEADER <= content[n..]
  }

  lemma HeaderExactly(content: string)
    ensures HasOwnershipHeader(content) <==> BeginsWithHeader(content)
  {
    if HasOwnershipHeader(content) {
      var n := TrimStartSuffix(content);
      assert Blank(content[..n]) && HEADER <= content[n..];
    }
    if n: nat :| n <= |content| && Blank(content[..n]) && HEADER <= content[n..] {
      assert content[n..][0] == HEADER[0];
      assert HEADER[0] == '/';
      TrimStartAt(content, n);
    }
  }

  ghost predicate DistinctPaths(generated: seq<Generated>) {
    forall i, j :: 0 <= i < j < |generated| ==> generated[i].path != generated[j].path
  }

  function Keys(generated: seq<Generated>): set<Path> { set i | 0 <= i < |generated| :: generated[i].path }

  function Content(generated: seq<Generated>): Files {
    if generated == [] then map[]
    else
      var last := |generated| - 1;
      Content(generated[..last])[generated[last].path := generated[last].content]
  }

  /** A file that is there, is not generated any more, and carries the header. */
  predicate StaleOwned(files: Files, keys: set<Path>, p: Path) {
    p !in keys && p in files && HasOwnershipHeader(files[p])
  }

  /** The stale owned files the ledger lists. */
  function Doomed(ps: Paths, files: Files, keys: set<Path>, ledger: seq<string>): set<Path> {
    set i | 0 <= i < |ledger| && StaleOwned(files, keys, ps.resolve(ledger[i])) :: ps.resolve(ledger[i])
  }

  /** What becomes of a stale owned file. */
  function StaleStatus(check: bool, clean: bool): (status: Status)
    ensures status == Deleted <==> !check && clean
    ensures status == Drifted <==> check
    ensures status == Unchanged <==> !check && !clean
  {
    if check then Drifted else if clean then Deleted else Unchanged
  }

  /** The results report exactly the files of `owned`, without content. */
  ghost predicate ReportsStale(results: seq<FileResult>, owned: set<Path>, check: bool, clean: bool) {
    && (forall p :: p in Listed(results) <==> p in owned)
    && forall i :: 0 <= i < |results| ==> results[i] == FileResult(results[i].path, "", StaleStatus(check, clean))
  }

  lemma ReportStale(results: seq<FileResult>, owned: set<Path>, path: Path, check: bool, clean: bool)
    requires ReportsStale(results, owned, check, clean)
    ensures ReportsStale(results + [FileResult(path, "", StaleStatus(check, clean))], owned + {path}, check, clean)
  {
    assert Listed(results + [FileResult(path, "", StaleStatus(check, clean))]) == Listed(results) + [path];
  }

  lemma DoomedApart(ps: Paths, files: Files, keys: set<Path>, ledger: seq<string>)
    ensures Doomed(ps, files, keys, ledger) !! keys
  {
  }

  /** The ledger lists a stale owned file under two entries. */
  ghost predicate ListsTwice(ps: Paths, files: Files, keys: set<Path>, ledger: seq<string>) {
    exists i, j :: 0 <= i < j < |ledger| && ps.resolve(ledger[i]) == ps.resolve(ledger[j]) &&
      StaleOwned(files, keys, ps.resolve(ledger[i]))
  }

  ghost predicate UpToDate(files: Files, generated: seq<Generated>) {
    forall i :: 0 <= i < |generated| ==> generated[i].path in files && files[generated[i].path] == generated[i].content
  }

  /** Created where there was no file, updated where there was another content. */
  function StatusOf(files: Files, g: Generated, check: bool): (status: Status)
    ensures status == Unchanged <==> g.path in files && files[g.path] == g.content
    ensures status == Drifted <==> check && (g.path in files ==> files[g.path] != g.content)
    ensures status == Created <==> !check && g.path !in files
    ensures status == Updated <==> !check && g.path in files && files[g.path] != g.content
  {
    if g.path in files && files[g.path] == g.content then Unchanged
    else if check then Drifted else if g.path in files then Updated else Created
  }

  lemma {:induction false} ContentIs(generated: seq<Generated>)
    requires DistinctPaths(generated)
    ensures Content(generated).Keys == Keys(generated)
    ensures forall i :: 0 <= i < |generated| ==>
      generated[i].path in Content(generated) && Content(generated)[generated[i].path] == generated[i].content
  {
    if generated != [] {
      var last := |generated| - 1;
      ContentIs(generated[..last]);
      assert forall i :: 0 <= i < last ==> generated[..last][i] == generated[i];
    }
  }

  // ----- the ledger -----

  function Dedup(s: seq<string>): seq<string> {
    if s == [] then []
    else
      var rest, last := Dedup(s[..|s| - 1]), s[|s| - 1];
      if last in rest then rest else rest + [last]
  }

  lemma {:induction false} DedupIs(s: seq<string>)
    ensures NoRepeats(Dedup(s)) && forall x :: x in Dedup(s) <==> x in s
  {
    if s != [] {
      DedupIs(s[..|s| - 1]);
      assert s == s[..|s| - 1] + [s[|s| - 1]];
    }
  }

  /** What `saveLedger` writes. */
  function Saved(ps: Paths, entries: seq<string>): seq<string> { Sort(Dedup(entries), ps.le) }

  lemma SavedIs(ps: Paths, entries: seq<string>)
    requires Sound(ps)
    ensures forall x :: x in Saved(ps, entries) <==> x in entries
    ensures NoRepeats(Saved(ps, entries)) && Sorted(Saved(ps, entries), ps.le)
  {
    hide Sort, Dedup;
    DedupIs(entries);
    SortMembers(Dedup(entries), ps.le);
    SortElements(Dedup(entries), ps.le);
    ReorderNoRepeats(Saved(ps, entries), Dedup(entries));
    SortSorted(Dedup(entries), ps.le);
  }

  /** The ledger depends on which files are listed, not on how. */
  lemma SavedSame(ps: Paths, a: seq<string>, b: seq<string>)
    requires Sound(ps) && forall x :: x in a <==> x in b
    ensures Saved(ps, a) == Saved(ps, b)
  {
    hide Saved;
    SavedIs(ps, a);
    SavedIs(ps, b);
    SortedUnique(Saved(ps, a), Saved(ps, b), ps.le);
  }

  /** The entries of a ledger are exactly the relative paths of `paths`. */
  ghost predicate Lists(ps: Paths, ledger: seq<string>, paths: set<Path>) {
    forall e :: e in ledger <==> exists p :: p in paths && e == ps.relative(p)
  }

  /** Read against a ledger of `paths`, the stale owned files are those of `paths`. */
  lemma DoomedListed(ps: Paths, files: Files, keys: set<Path>, ledger: seq<string>, paths: set<Path>)
    requires Sound(ps) && Lists(ps, ledger, paths)
    ensures Doomed(ps, files, keys, ledger) == (set p | p in paths && StaleOwned(files, keys, p))
  {
    hide StaleOwned;
    var doomed := Doomed(ps, files, keys, ledger);
    forall p | p in doomed ensures p in paths {
      var i :| 0 <= i < |ledger| && ps.resolve(ledger[i]) == p;
      assert ledger[i] in ledger;
    }
    forall p | p in paths && StaleOwned(files, keys, p) ensures p in doomed {
      assert ps.relative(p) in ledger;
      var i :| 0 <= i < |ledger| && ledger[i] == ps.relative(p);
    }
  }

  class Generator {
    const ps: Paths
    var files: Files
    var ledger: seq<string>

    constructor (ps: Paths, files: Files, ledger: seq<string>)
      ensures this.ps == ps && this.files == files && this.ledger == ledger
    {
      this.ps, this.files, this.ledger := ps, files, ledger;
    }

    method FindStale(keys: set<Path>) returns (stale: seq<Path>)
      ensures forall p :: p in stale ==> p !in keys && p in files
      ensures OwnedOf(files, stale) == Doomed(ps, files, keys, ledger)
      ensures RepeatsOwned(files, stale) <==> ListsTwice(ps, files, keys, ledger)
    {
      hide HasOwnershipHeader;
      stale := [];
      var i := 0;
      while i < |ledger|
        invariant i <= |ledger|
        invariant forall p :: p in stale ==> p !in keys && p in files
        invariant OwnedOf(files, stale) == Doomed(ps, files, keys, ledger[..i])
        invariant RepeatsOwned(files, stale) <==> ListsTwice(ps, files, keys, ledger[..i])
      {
        var path := ps.resolve(ledger[i]);
        ScanStep(ps, files, keys, ledger, i, stale);
        if path !in keys && path in files {
          stale := stale + [path];
        }
        i := i + 1;
      }
      assert ledger[..|ledger|] == ledger;
    }

    method Compare(generated: seq<Generated>, check: bool) returns (results: seq<FileResult>, drifted: bool)
      ensures |results| == |generated|
      ensures forall i :: 0 <= i < |generated| ==>
        results[i] == FileResult(generated[i].path, generated[i].content, StatusOf(files, generated[i], check))
      ensures drifted == (check && !UpToDate(files, generated))
    {
      results, drifted := [], false;
      var i := 0;
      while i < |generated|
        invariant i <= |generated| == i + (|generated| - i) && |results| == i
        invariant forall j :: 0 <= j < i ==>
          results[j] == FileResult(generated[j].path, generated[j].content, StatusOf(files, generated[j], check))
        invariant drifted == (check && !UpToDate(files, generated[..i]))
      {
        assert forall j :: 0 <= j < i ==> generated[..i + 1][j] == generated[..i][j];
        assert generated[..i + 1][i] == generated[i];
        var g := generated[i];
        if g.path !in files {
          if check {
            drifted := true;
          }
          results := results + [FileResult(g.path, g.content, if check then Drifted else Created)];
        } else if files[g.path] != g.content {
          if check {
            drifted := true;
          }
          results := results + [FileResult(g.path, g.content, if check then Drifted else Updated)];
        } else {
          results := results + [FileResult(g.path, g.content, Unchanged)];
        }
        i := i + 1;
      }
      assert generated[..|generated|] == generated;
    }

    /**
     * The stale files in ledger order. Deleting a file and meeting it again throws, since it cannot be read any more.
     */
    method ProcessStale(stale: seq<Path>, check: bool, clean: bool)
      returns (threw: bool, results: seq<FileResult>, drifted: bool)
      requires forall p :: p in stale ==> p in files
      modifies this`files
      ensures check || !clean ==> files == old(files) && !threw
      ensures threw <==> !check && clean && RepeatsOwned(old(files), stale)
      ensures !threw ==> drifted == (check && OwnedOf(old(files), stale) != {})
      ensures !threw && !check && clean ==> files == old(files) - OwnedOf(old(files), stale)
      ensures !threw ==> ReportsStale(results, OwnedOf(old(files), stale), check, clean)
      ensures threw ==>
        files.Keys <= old(files).Keys && (forall p :: p in files ==> files[p] == old(files)[p]) &&
        old(files).Keys - files.Keys <= OwnedOf(old(files), stale)
    {
      hide HasOwnershipHeader;
      threw, results, drifted := false, [], false;
      var i := 0;
      while i < |stale|
        invariant i <= |stale|
        invariant files == (if !check && clean then old(files) - OwnedOf(old(files), stale[..i]) else old(files))
        invariant !check && clean ==> !RepeatsOwned(old(files), stale[..i])
        invariant drifted == (check && OwnedOf(old(files), stale[..i]) != {})
        invariant ReportsStale(results, OwnedOf(old(files), stale[..i]), check, clean)
      {
        hide ReportsStale;
        var path := stale[i];
        StaleStep(old(files), stale, i);
        if path !in files {
          threw := true;
          RepeatsMore(old(files), stale, i + 1);
          OwnedMore(old(files), stale, i);
          return;
        }
        if HasOwnershipHeader(files[path]) {
          ReportStale(results, OwnedOf(old(files), stale[..i]), path, check, clean);
          if check {
            drifted := true;
            results := results + [FileResult(path, "", Drifted)];
          } else if clean {
            files := files - {path};
            results := results + [FileResult(path, "", Deleted)];
          } else {
            results := results + [FileResult(path, "", Unchanged)];
          }
        }
        i := i + 1;
      }
      assert stale[..|stale|] == stale;
    }

    /** The results of stale files that follow are never created or updated, so they write nothing. */
    method WriteFiles(generated: seq<Generated>, results: seq<FileResult>)
      requires |results| == |generated| &&
        forall i :: 0 <= i < |generated| ==>
        results[i].path == generated[i].path && results[i].content == generated[i].content
      requires forall i :: 0 <= i < |generated| ==>
        results[i].status in {Created, Updated} ||
        (generated[i].path in files && files[generated[i].path] == generated[i].content)
      requires DistinctPaths(generated)
      modifies this`files
      ensures files == old(files) + Content(generated)
    {
      hide Content;
      NoContent(files);
      var i := 0;
      while i < |generated|
        invariant i <= |generated| && files == old(files) + Content(generated[..i])
      {
        ContentNext(old(files), generated, i);
        if results[i].status in {Created, Updated} {
          files := files[results[i].path := results[i].content];
        }
        i := i + 1;
      }
      assert generated[..|generated|] == generated;
    }

    /** A run, in check or in write mode, with or without cleaning. */
    method Generate(generated: seq<Generated>, check: bool, clean: bool)
      returns (threw: bool, results: seq<FileResult>, drifted: bool)
      requires Sound(ps) && DistinctPaths(generated)
      modifies this`files, this`ledger
      ensures check ==> files == old(files) && ledger == old(ledger) && !threw
      ensures threw <==> !check && clean && ListsTwice(ps, old(files), Keys(generated), old(ledger))
      ensures drifted ==
        (check && (!UpToDate(old(files), generated) || Doomed(ps, old(files), Keys(generated), old(ledger)) != {}))
      ensures !threw ==>
        Reported(old(files), generated, Doomed(ps, old(files), Keys(generated), old(ledger)), check, clean, results)
      ensures !check && !threw ==> Ran(ps, old(files), old(ledger), generated, clean, files, ledger)
      ensures threw ==>
        ledger == old(ledger) && files.Keys <= old(files).Keys && (forall p :: p in files ==> files[p] == old(files)[p])
      ensures threw ==> old(files).Keys - files.Keys <= Doomed(ps, old(files), Keys(generated), old(ledger))
    {
      hide HasOwnershipHeader, OwnedOf, RepeatsOwned, ListsTwice, Doomed, Saved, Content, Sound, UpToDate;
      var keys := Keys(generated);
      var stale := FindStale(keys);
      var compared, drift := Compare(generated, check);
      var thrown, staleResults, staleDrift := ProcessStale(stale, check, clean);
      if thrown {
        return true, [], false;
      }
      results := compared + staleResults;
      drifted := drift || staleDrift;
      if !check {
        ghost var doomed := Doomed(ps, old(files), keys, old(ledger));
        DoomedApart(ps, old(files), keys, old(ledger));
        StillThere(old(files), files, generated, compared, doomed);
        WriteFiles(generated, compared);
        var entries := Relative(ps, Listed(compared) + (if clean then [] else Listed(staleResults)));
        Entries(ps, generated, compared, staleResults, clean, doomed, entries);
        ledger := Saved(ps, entries);
        SavedLists(ps, entries, keys + if clean then {} else doomed);
      }
      return false, results, drifted;
    }
  }

  /** The status of every generated file, then every stale owned one. */
  ghost predicate Reported(
      files: Files, generated: seq<Generated>, doomed: set<Path>, check: bool, clean: bool, results: seq<FileResult>) {
    && |generated| <= |results|
    && (forall i :: 0 <= i < |generated| ==>
        results[i] == FileResult(generated[i].path, generated[i].content, StatusOf(files, generated[i], check)))
    && ReportsStale(results[|generated|..], doomed, check, clean)
  }

  /** What a write run leaves behind. */
  ghost predicate Ran(
      ps: Paths, files: Files, ledger: seq<string>, generated: seq<Generated>, clean: bool, files': Files,
      ledger': seq<string>) {
    var doomed := Doomed(ps, files, Keys(generated), ledger);
    && files' == (if clean then files - doomed else files) + Content(generated)
    && Lists(ps, ledger', Keys(generated) + if clean then {} else doomed)
    && NoRepeats(ledger') && Sorted(ledger', ps.le)
  }

  function OwnedOf(files: Files, stale: seq<Path>): set<Path> {
    set i | 0 <= i < |stale| && stale[i] in files && HasOwnershipHeader(files[stale[i]]) :: stale[i]
  }

  ghost predicate RepeatsOwned(files: Files, stale: seq<Path>) {
    exists i, j :: 0 <= i < j < |stale| && stale[i] == stale[j] && stale[i] in files &&
      HasOwnershipHeader(files[stale[i]])
  }

  function Listed(results: seq<FileResult>): (r: seq<Path>)
    ensures |r| == |results| && forall i :: 0 <= i < |results| ==> r[i] == results[i].path
  {
    seq(|results|, i requires 0 <= i < |results| => results[i].path)
  }

  function Relative(ps: Paths, paths: seq<Path>): (r: seq<string>)
    ensures |r| == |paths| && forall i :: 0 <= i < |paths| ==> r[i] == ps.relative(paths[i])
  {
    seq(|paths|, i requires 0 <= i < |paths| => ps.relative(paths[i]))
  }

  // ----- steps of the loops -----

  lemma OwnedAppend(files: Files, stale: seq<Path>, p: Path)
    requires p in files
    ensures OwnedOf(files, stale + [p]) == OwnedOf(files, stale) + if HasOwnershipHeader(files[p]) then {p} else {}
    ensures RepeatsOwned(files, stale + [p]) <==> RepeatsOwned(files, stale) || p in OwnedOf(files, stale)
  {
    hide HasOwnershipHeader;
    var more := stale + [p];
    assert forall i :: 0 <= i < |stale| ==> more[i] == stale[i];
    assert more[|stale|] == p;
    if RepeatsOwned(files, stale) {
      var i, j :| 0 <= i < j < |stale| && stale[i] == stale[j] && stale[i] in files &&
        HasOwnershipHeader(files[stale[i]]);
      assert more[i] == more[j];
    }
    if p in OwnedOf(files, stale) {
      var i :| 0 <= i < |stale| && stale[i] == p && HasOwnershipHeader(files[stale[i]]);
      assert more[i] == more[|stale|];
    }
    if RepeatsOwned(files, more) {
      var i, j :| 0 <= i < j < |more| && more[i] == more[j] && more[i] in files && HasOwnershipHeader(files[more[i]]);
      if j < |stale| {
        assert stale[i] == stale[j];
      } else {
        assert stale[i] in OwnedOf(files, stale);
      }
    }
  }

  lemma StaleStep(files: Files, stale: seq<Path>, i: nat)
    requires i < |stale| && stale[i] in files
    ensures OwnedOf(files, stale[..i + 1]) ==
      OwnedOf(files, stale[..i]) + if HasOwnershipHeader(files[stale[i]]) then {stale[i]} else {}
    ensures RepeatsOwned(files, stale[..i + 1]) <==>
      RepeatsOwned(files, stale[..i]) || stale[i] in OwnedOf(files, stale[..i])
  {
    assert stale[..i + 1] == stale[..i] + [stale[i]];
    OwnedAppend(files, stale[..i], stale[i]);
  }

  lemma RepeatsMore(files: Files, stale: seq<Path>, i: nat)
    requires i <= |stale|
    ensures RepeatsOwned(files, stale[..i]) ==> RepeatsOwned(files, stale)
  {
    hide HasOwnershipHeader;
    if RepeatsOwned(files, stale[..i]) {
      var a, b :| 0 <= a < b < |stale[..i]| && stale[..i][a] == stale[..i][b] && stale[..i][a] in files &&
        HasOwnershipHeader(files[stale[..i][a]]);
      assert stale[a] == stale[b];
    }
  }

  lemma OwnedMore(files: Files, stale: seq<Path>, i: nat)
    requires i <= |stale|
    ensures OwnedOf(files, stale[..i]) <= OwnedOf(files, stale)
  {
    hide HasOwnershipHeader;
    assert forall j :: 0 <= j < i ==> stale[..i][j] == stale[j];
  }

  /** One ledger entry more. */
  lemma ScanStep(ps: Paths, files: Files, keys: set<Path>, ledger: seq<string>, i: nat, stale: seq<Path>)
    requires i < |ledger| && forall p :: p in stale ==> p !in keys && p in files
    requires OwnedOf(files, stale) == Doomed(ps, files, keys, ledger[..i])
    requires RepeatsOwned(files, stale) <==> ListsTwice(ps, files, keys, ledger[..i])
    ensures var p := ps.resolve(ledger[i]); var after := if p !in keys && p in files then stale + [p] else stale;
      OwnedOf(files, after) == Doomed(ps, files, keys, ledger[..i + 1]) &&
        (RepeatsOwned(files, after) <==> ListsTwice(ps, files, keys, ledger[..i + 1]))
  {
    hide HasOwnershipHeader, OwnedOf, RepeatsOwned;
    var p := ps.resolve(ledger[i]);
    DoomedStep(ps, files, keys, ledger, i);
    if p !in keys && p in files {
      OwnedAppend(files, stale, p);
    }
  }

  lemma DoomedStep(ps: Paths, files: Files, keys: set<Path>, ledger: seq<string>, i: nat)
    requires i < |ledger|
    ensures var p := ps.resolve(ledger[i]);
      && Doomed(ps, files, keys, ledger[..i + 1]) ==
          Doomed(ps, files, keys, ledger[..i]) + (if StaleOwned(files, keys, p) then {p} else {})
      && (ListsTwice(ps, files, keys, ledger[..i + 1]) <==>
          ListsTwice(ps, files, keys, ledger[..i]) || p in Doomed(ps, files, keys, ledger[..i]))
  {
    hide StaleOwned, ListsTwice, Doomed;
    assert ledger[..i + 1] == ledger[..i] + [ledger[i]];
    DoomedAppend(ps, files, keys, ledger[..i], ledger[i]);
    TwiceAppend(ps, files, keys, ledger[..i], ledger[i]);
  }

  lemma DoomedAppend(ps: Paths, files: Files, keys: set<Path>, less: seq<string>, entry: string)
    ensures var p := ps.resolve(entry);
      Doomed(ps, files, keys, less + [entry]) ==
        Doomed(ps, files, keys, less) + if StaleOwned(files, keys, p) then {p} else {}
  {
    hide StaleOwned;
    var more := less + [entry];
    assert forall j :: 0 <= j < |less| ==> more[j] == less[j];
    assert more[|less|] == entry;
  }

  lemma TwiceAppend(ps: Paths, files: Files, keys: set<Path>, less: seq<string>, entry: string)
    ensures ListsTwice(ps, files, keys, less + [entry]) <==>
      ListsTwice(ps, files, keys, less) || ps.resolve(entry) in Doomed(ps, files, keys, less)
  {
    hide StaleOwned;
    var more := less + [entry];
    var n := |less|;
    assert forall j :: 0 <= j < n ==> more[j] == less[j];
    assert more[n] == entry;
    if ListsTwice(ps, files, keys, less) {
      var a, b :| 0 <= a < b < n && ps.resolve(less[a]) == ps.resolve(less[b]) &&
        StaleOwned(files, keys, ps.resolve(less[a]));
      assert ps.resolve(more[a]) == ps.resolve(more[b]);
    }
    if ps.resolve(entry) in Doomed(ps, files, keys, less) {
      var a :| 0 <= a < n && StaleOwned(files, keys, ps.resolve(less[a])) && ps.resolve(less[a]) == ps.resolve(entry);
      assert ps.resolve(more[a]) == ps.resolve(more[n]);
    }
    if ListsTwice(ps, files, keys, more) {
      var a, b :| 0 <= a < b < |more| && ps.resolve(more[a]) == ps.resolve(more[b]) &&
        StaleOwned(files, keys, ps.resolve(more[a]));
      if b < n {
        assert ps.resolve(less[a]) == ps.resolve(less[b]);
      } else {
        assert ps.resolve(less[a]) in Doomed(ps, files, keys, less);
      }
    }
  }

  lemma NoContent(files: Files)
    ensures files + Content([]) == files
  {
  }

  /** Writing the next generated file, or finding it as it should be. */
  lemma ContentNext(files: Files, generated: seq<Generated>, i: nat)
    requires DistinctPaths(generated) && i < |generated|
    ensures var now := files + Content(generated[..i]); var g := generated[i];
      && now[g.path := g.content] == files + Content(generated[..i + 1])
      && (g.path in files && files[g.path] == g.content ==> now == files + Content(generated[..i + 1]))
  {
    assert generated[..i + 1][..i] == generated[..i];
    NotYet(generated, i);
  }

  lemma NotYet(generated: seq<Generated>, i: nat)
    requires DistinctPaths(generated) && i < |generated|
    ensures generated[i].path !in Content(generated[..i])
  {
    assert forall j :: 0 <= j < i ==> generated[..i][j] == generated[j];
    ContentIs(generated[..i]);
  }

  /** Deleting stale files does not touch generated ones. */
  lemma StillThere(files: Files, left: Files, generated: seq<Generated>, results: seq<FileResult>, doomed: set<Path>)
    requires doomed !! Keys(generated) && (left == files || left == files - doomed) && |results| == |generated|
    requires forall i :: 0 <= i < |generated| ==>
      results[i] == FileResult(generated[i].path, generated[i].content, StatusOf(files, generated[i], false))
    ensures forall i :: 0 <= i < |generated| ==>
      results[i].status in {Created, Updated} ||
      (generated[i].path in left && left[generated[i].path] == generated[i].content)
  {
    forall i | 0 <= i < |generated| ensures generated[i].path in Keys(generated) {}
  }

  lemma Entries(
      ps: Paths, generated: seq<Generated>, results: seq<FileResult>, stale: seq<FileResult>, clean: bool,
      doomed: set<Path>, entries: seq<string>)
    requires |results| == |generated| && forall i :: 0 <= i < |generated| ==> results[i].path == generated[i].path
    requires !clean ==> forall p :: p in Listed(stale) <==> p in doomed
    requires entries == Relative(ps, Listed(results) + (if clean then [] else Listed(stale)))
    ensures Lists(ps, entries, Keys(generated) + if clean then {} else doomed)
  {
    var paths := Listed(results) + (if clean then [] else Listed(stale));
    var listed := Keys(generated) + if clean then {} else doomed;
    forall p ensures p in paths <==> p in listed {
      if p in Keys(generated) {
        var i :| 0 <= i < |generated| && generated[i].path == p;
        assert Listed(results)[i] == p;
      }
      if p in Listed(results) {
        var i :| 0 <= i < |results| && Listed(results)[i] == p;
        assert generated[i].path == p;
      }
    }
    forall e ensures e in entries <==> exists p :: p in listed && e == ps.relative(p) {
      if e in entries {
        var i :| 0 <= i < |entries| && entries[i] == e;
        assert paths[i] in paths;
      }
      if p :| p in listed && e == ps.relative(p) {
        assert p in paths;
        var i :| 0 <= i < |paths| && paths[i] == p;
        assert entries[i] == e;
      }
    }
  }

  lemma SavedLists(ps: Paths, entries: seq<string>, paths: set<Path>)
    requires Sound(ps) && Lists(ps, entries, paths)
    ensures Lists(ps, Saved(ps, entries), paths) && NoRepeats(Saved(ps, entries)) && Sorted(Saved(ps, entries), ps.le)
  {
    hide Saved;
    SavedIs(ps, entries);
  }

  // ----- runs after runs -----

  /**
   * What a write run changes: generated files get their content, a clean run removes listed, owned files that are not
   * generated, and nothing else.
   */
  lemma OthersUntouched(
      ps: Paths, files: Files, ledger: seq<string>, generated: seq<Generated>, clean: bool, files': Files,
      ledger': seq<string>, p: Path)
    requires DistinctPaths(generated) && Ran(ps, files, ledger, generated, clean, files', ledger')
    requires p !in Keys(generated)
    ensures p in files' <==>
      p in files && !(clean && BeginsWithHeader(files[p]) &&
      exists i :: 0 <= i < |ledger| && ps.resolve(ledger[i]) == p)
    ensures p in files' ==> files'[p] == files[p]
  {
    hide HasOwnershipHeader, BeginsWithHeader, Content, Lists;
    if p in files {
      HeaderExactly(files[p]);
    }
    ContentIs(generated);
  }

  lemma AllUpToDate(
      ps: Paths, files: Files, ledger: seq<string>, generated: seq<Generated>, clean: bool, files': Files,
      ledger': seq<string>)
    requires DistinctPaths(generated) && Ran(ps, files, ledger, generated, clean, files', ledger')
    ensures UpToDate(files', generated)
  {
    hide Content, Lists, Doomed;
    ContentIs(generated);
  }

  /** After a clean write that ran through, a check finds nothing. */
  method CleanThenCheck(g: Generator, generated: seq<Generated>) returns (threw: bool, drifted: bool)
    requires Sound(g.ps) && DistinctPaths(generated)
    modifies g
    ensures threw <==> ListsTwice(g.ps, old(g.files), Keys(generated), old(g.ledger))
    ensures drifted == threw
  {
    hide Sound, UpToDate, Doomed, ListsTwice, Ran;
    ghost var files, ledger := g.files, g.ledger;
    var results: seq<FileResult>;
    threw, results, drifted := g.Generate(generated, false, true);
    drifted := true;
    if !threw {
      AllUpToDate(g.ps, files, ledger, generated, true, g.files, g.ledger);
      NothingDoomed(g.ps, files, ledger, generated, g.files, g.ledger);
      threw, results, drifted := g.Generate(generated, true, true);
    }
  }

  lemma NothingDoomed(
      ps: Paths, files: Files, ledger: seq<string>, generated: seq<Generated>, files': Files, ledger': seq<string>)
    requires Sound(ps) && Ran(ps, files, ledger, generated, true, files', ledger')
    ensures Doomed(ps, files', Keys(generated), ledger') == {}
  {
    hide Sound, Lists, Content;
    var keys := Keys(generated);
    assert keys + {} == keys;
    DoomedListed(ps, files', keys, ledger', keys);
  }

  /** A write without cleaning, repeated, changes neither files nor ledger. */
  method WriteTwice(g: Generator, generated: seq<Generated>)
    requires Sound(g.ps) && DistinctPaths(generated)
    modifies g
    ensures Ran(g.ps, old(g.files), old(g.ledger), generated, false, g.files, g.ledger)
  {
    hide Sound, UpToDate, Doomed, ListsTwice, Ran;
    ghost var files, ledger := g.files, g.ledger;
    var threw, results, drifted := g.Generate(generated, false, false);
    ghost var files', ledger' := g.files, g.ledger;
    threw, results, drifted := g.Generate(generated, false, false);
    Idempotent(g.ps, files, ledger, generated, files', ledger', g.files, g.ledger);
  }

  lemma Idempotent(ps: Paths, files: Files, ledger: seq<string>, generated: seq<Generated>,
                   files': Files, ledger': seq<string>, files'': Files, ledger'': seq<string>)
    requires Sound(ps) && DistinctPaths(generated)
    requires Ran(ps, files, ledger, generated, false, files', ledger')
    requires Ran(ps, files', ledger', generated, false, files'', ledger'')
    ensures files'' == files' && ledger'' == ledger'
  {
    hide HasOwnershipHeader, Content;
    var keys := Keys(generated);
    var doomed := Doomed(ps, files, keys, ledger);
    ContentIs(generated);
    SameDoomed(ps, files, ledger, generated, files', ledger');
    SortedUnique(ledger', ledger'', ps.le);
  }

  lemma SameDoomed(
      ps: Paths, files: Files, ledger: seq<string>, generated: seq<Generated>, files': Files, ledger': seq<string>)
    requires Sound(ps) && DistinctPaths(generated) && Ran(ps, files, ledger, generated, false, files', ledger')
    ensures Doomed(ps, files', Keys(generated), ledger') == Doomed(ps, files, Keys(generated), ledger)
  {
    hide HasOwnershipHeader, Content, Lists, Sound;
    var keys := Keys(generated);
    var doomed := Doomed(ps, files, keys, ledger);
    ContentIs(generated);
    DoomedListed(ps, files', keys, ledger', keys + doomed);
    forall p ensures p in keys + doomed && StaleOwned(files', keys, p) <==> p in doomed {
    }
  }

  // ----- which ledgers make a cleaning run throw -----

  /** A ledger that lists a stale owned file under the same entry twice does. */
  lemma TwiceListed(ps: Paths, files: Files, keys: set<Path>, entry: string)
    requires StaleOwned(files, keys, ps.resolve(entry))
    ensures ListsTwice(ps, files, keys, [entry, entry])
  {
    hide StaleOwned;
    var ledger := [entry, entry];
    assert ps.resolve(ledger[0]) == ps.resolve(ledger[1]);
  }

  /** A ledger written by a run does not, whatever happens to the files and to what is generated. */
  lemma WrittenOnce(
    ps: Paths, files: Files, ledger: seq<string>, generated: seq<Generated>, clean: bool,
    files': Files, ledger': seq<string>, later: Files, keys: set<Path>)
    requires Sound(ps) && Ran(ps, files, ledger, generated, clean, files', ledger')
    ensures !ListsTwice(ps, later, keys, ledger')
  {
    hide StaleOwned, Doomed, Content;
    var paths := Keys(generated) + if clean then {} else Doomed(ps, files, Keys(generated), ledger);
    forall i, j | 0 <= i < j < |ledger'| ensures ps.resolve(ledger'[i]) != ps.resolve(ledger'[j]) {
      assert ledger'[i] in ledger' && ledger'[j] in ledger';
      var p :| p in paths && ledger'[i] == ps.relative(p);
      var q :| q in paths && ledger'[j] == ps.relative(q);
      assert ps.resolve(ps.relative(p)) == p && ps.resolve(ps.relative(q)) == q;
    }
  }

  /** Once a write run has completed, no cleaning run after it throws. */
  method CleanLater(g: Generator, generated: seq<Generated>, next: seq<Generated>)
    requires Sound(g.ps) && DistinctPaths(generated) && DistinctPaths(next)
    modifies g
    ensures UpToDate(g.files, next) && Lists(g.ps, g.ledger, Keys(next))
  {
    hide Sound, UpToDate, Doomed, ListsTwice, Ran, Lists;
    ghost var files, ledger := g.files, g.ledger;
    var threw, results, drifted := g.Generate(generated, false, false);
    ghost var files', ledger' := g.files, g.ledger;
    WrittenOnce(g.ps, files, ledger, generated, false, files', ledger', files', Keys(next));
    threw, results, drifted := g.Generate(next, false, true);
    AllUpToDate(g.ps, files', ledger', next, true, g.files, g.ledger);
    ListedAfter(g.ps, files', ledger', next, g.files, g.ledger);
  }

  lemma ListedAfter(
      ps: Paths, files: Files, ledger: seq<string>, generated: seq<Generated>, files': Files, ledger': seq<string>)
    requires Ran(ps, files, ledger, generated, true, files', ledger')
    ensures Lists(ps, ledger', Keys(generated))
  {
    hide Lists, Content, Doomed;
    assert Keys(generated) + {} == Keys(generated);
  }
}
