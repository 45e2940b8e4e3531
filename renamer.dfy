/**
 * The directory side of the renamer: a root path holding entries, some of
 * which are season folders with listings of their own; the rename primitive;
 * `replace_ss` on the root; the folder loop shared by `add_numbering` and
 * `replace_absolute`; and the dispatch of `main`.
 */
module Renamer {
  import opened Text
  import opened Tokens
  import opened Ordering
  import opened Arguments
  import opened Numbering

  // ---------------------------------------------------------------------
  // Renaming inside one directory
  // ---------------------------------------------------------------------

  /** Every entry named `a` is called `b`, and an entry already named `b` disappears. */
  function Substitute(names: seq<string>, a: string, b: string): seq<string>
    decreases |names|
  {
    if names == [] then []
    else (if names[0] == a then [b] else if names[0] == b then [] else [names[0]]) + Substitute(names[1..], a, b)
  }

  /**
   * `os.rename(dir + a, dir + b)` on the listing of `dir`: `a` takes the name
   * `b`, replacing what was called `b`.  Renaming a name to itself, or a name
   * that is not there, leaves the listing as it is.
   */
  function RenameIn(names: seq<string>, a: string, b: string): seq<string> {
    if a !in names || a == b then names else Substitute(names, a, b)
  }

  lemma {:induction false} SubstituteMembers(names: seq<string>, a: string, b: string, x: string)
    requires a != b
    ensures x in Substitute(names, a, b) <==> (x in names && x != a && x != b) || (x == b && a in names)
    decreases |names|
  {
    if names != [] {
      SubstituteMembers(names[1..], a, b, x);
      assert names == [names[0]] + names[1..];
    }
  }

  /** The tail of a list of distinct names is distinct and does not hold the head. */
  lemma DistinctCons(names: seq<string>)
    requires Distinct(names) && names != []
    ensures Distinct(names[1..]) && names[0] !in names[1..]
  {
    var rest := names[1..];
    forall i, j | 0 <= i < j < |rest| ensures rest[i] != rest[j] {
      assert rest[i] == names[i + 1] && rest[j] == names[j + 1];
    }
    forall j | 0 <= j < |rest| ensures rest[j] != names[0] {
      assert rest[j] == names[j + 1];
    }
  }

  /** In a list of distinct names no element occurs before its own position. */
  lemma DistinctPrefix(names: seq<string>, n: nat)
    requires Distinct(names) && n < |names|
    ensures names[n] !in names[..n]
  {
    forall j | 0 <= j < n ensures names[..n][j] != names[n] {
      assert names[..n][j] == names[j];
    }
  }

  lemma {:induction false} SubstituteDistinct(names: seq<string>, a: string, b: string)
    requires a != b && Distinct(names)
    ensures Distinct(Substitute(names, a, b))
    decreases |names|
  {
    if names != [] {
      var rest := names[1..];
      DistinctCons(names);
      SubstituteDistinct(rest, a, b);
      var r := Substitute(rest, a, b);
      var h := if names[0] == a then [b] else if names[0] == b then [] else [names[0]];
      forall y | y in h ensures y !in r {
        SubstituteMembers(rest, a, b, y);
        if names[0] == a {
          assert a !in rest;
        }
      }
      forall i, j | 0 <= i < j < |h + r| ensures (h + r)[i] != (h + r)[j] {
        if i < |h| {
          assert (h + r)[i] in h && (h + r)[j] == r[j - |h|];
        } else {
          assert (h + r)[i] == r[i - |h|] && (h + r)[j] == r[j - |h|];
        }
      }
    }
  }

  /**
   * After renaming an existing entry `a` to a different name `b`, the
   * listing holds `b`, no longer holds `a`, and keeps every other name; the
   * names stay distinct.
   */
  lemma RenameInSpec(names: seq<string>, a: string, b: string)
    requires Distinct(names)
    ensures Distinct(RenameIn(names, a, b))
    ensures a in names && a != b ==>
              forall x :: x in RenameIn(names, a, b) <==> x == b || (x in names && x != a)
    ensures a !in names || a == b ==> RenameIn(names, a, b) == names
  {
    if a in names && a != b {
      SubstituteDistinct(names, a, b);
      forall x ensures x in RenameIn(names, a, b) <==> x == b || (x in names && x != a) {
        SubstituteMembers(names, a, b, x);
      }
    }
  }

  /** The renames of a plan issued in order, on the listing of one directory. */
  function ApplyRenames(names: seq<string>, plan: seq<Rename>): seq<string>
    decreases |plan|
  {
    if plan == [] then names
    else
      var r := plan[|plan| - 1];
      RenameIn(ApplyRenames(names, plan[..|plan| - 1]), r.source, r.target)
  }

  /** A plan that renames every file to its own name changes nothing. */
  lemma {:induction false} ApplyIdentity(names: seq<string>, plan: seq<Rename>)
    requires forall k :: 0 <= k < |plan| ==> plan[k].source == plan[k].target
    ensures ApplyRenames(names, plan) == names
    decreases |plan|
  {
    if plan != [] {
      var init := plan[..|plan| - 1];
      assert forall k :: 0 <= k < |init| ==> init[k] == plan[k];
      ApplyIdentity(names, init);
    }
  }

  /** Renames keep the names of a directory distinct. */
  lemma {:induction false} ApplyDistinct(names: seq<string>, plan: seq<Rename>)
    requires Distinct(names)
    ensures Distinct(ApplyRenames(names, plan))
    decreases |plan|
  {
    if plan != [] {
      var r := plan[|plan| - 1];
      ApplyDistinct(names, plan[..|plan| - 1]);
      RenameInSpec(ApplyRenames(names, plan[..|plan| - 1]), r.source, r.target);
    }
  }

  // ---------------------------------------------------------------------
  // Renaming at the root, where an entry may be a folder
  // ---------------------------------------------------------------------

  /** The folder listings after `os.rename(root + a, root + b)`: a folder renamed keeps its listing under the new name. */
  function MoveFolder(folders: map<string, seq<string>>, names: seq<string>, a: string, b: string): map<string, seq<string>> {
    if a !in names || a == b then folders
    else if a in folders then (folders - {a, b})[b := folders[a]]
    else folders - {b}
  }

  /** The root entries and folder listings after the renames of a plan, in order. */
  function ApplyAtRoot(names: seq<string>, folders: map<string, seq<string>>, plan: seq<Rename>)
    : (seq<string>, map<string, seq<string>>)
    decreases |plan|
  {
    if plan == [] then (names, folders)
    else
      var r := plan[|plan| - 1];
      var (n, f) := ApplyAtRoot(names, folders, plan[..|plan| - 1]);
      (RenameIn(n, r.source, r.target), MoveFolder(f, n, r.source, r.target))
  }

  /** The root names of `ApplyAtRoot` are those of the renames applied to the root listing. */
  lemma {:induction false} ApplyAtRootNames(names: seq<string>, folders: map<string, seq<string>>, plan: seq<Rename>)
    ensures ApplyAtRoot(names, folders, plan).0 == ApplyRenames(names, plan)
    decreases |plan|
  {
    if plan != [] {
      ApplyAtRootNames(names, folders, plan[..|plan| - 1]);
    }
  }

  /**
   * Renames at the root keep the names distinct and every folder an entry;
   * they keep every name non-empty when no rename has an empty target.
   */
  lemma {:induction false} ApplyAtRootValid(names: seq<string>, folders: map<string, seq<string>>, plan: seq<Rename>)
    requires Distinct(names) && forall f :: f in folders ==> f in names
    ensures var (n, m) := ApplyAtRoot(names, folders, plan);
            Distinct(n) && forall f :: f in m ==> f in n
    ensures (forall x :: x in names ==> |x| > 0) && (forall k :: 0 <= k < |plan| ==> |plan[k].target| > 0) ==>
              forall x :: x in ApplyAtRoot(names, folders, plan).0 ==> |x| > 0
    decreases |plan|
  {
    if plan != [] {
      var init := plan[..|plan| - 1];
      var r := plan[|plan| - 1];
      ApplyAtRootValid(names, folders, init);
      assert forall k :: 0 <= k < |init| ==> init[k] == plan[k];
      var (n, m) := ApplyAtRoot(names, folders, init);
      RenameInSpec(n, r.source, r.target);
      MoveFolderKeys(m, n, r.source, r.target);
    }
  }

  /** After a rename at the root every folder is still an entry. */
  lemma MoveFolderKeys(folders: map<string, seq<string>>, names: seq<string>, a: string, b: string)
    requires Distinct(names) && forall f :: f in folders ==> f in names
    ensures forall f :: f in MoveFolder(folders, names, a, b) ==> f in RenameIn(names, a, b)
  {
    RenameInSpec(names, a, b);
  }

  // ---------------------------------------------------------------------
  // replace_ss
  // ---------------------------------------------------------------------

  /** A hidden entry: its name starts with '.'. */
  predicate Hidden(name: string) {
    |name| > 0 && name[0] == '.'
  }

  /** The renames `replace_ss` issues for a sorted root listing: every visible name with its first `pat` replaced by `repl`. */
  function Substitutions(listing: seq<string>, pat: string, repl: string): (plan: seq<Rename>)
    decreases |listing|
  {
    if listing == [] then []
    else
      var x := listing[|listing| - 1];
      Substitutions(listing[..|listing| - 1], pat, repl) +
      (if Hidden(x) then [] else [Rename(x, ReplaceFirst(x, pat, repl))])
  }

  /**
   * The plan of `replace_ss` renames exactly the visible names of the
   * listing, in order, each to the name with its first `pat` replaced; it is
   * empty exactly when every name is hidden.
   */
  lemma {:induction false} SubstitutionsSpec(listing: seq<string>, pat: string, repl: string)
    ensures forall k :: 0 <= k < |Substitutions(listing, pat, repl)| ==>
              var r := Substitutions(listing, pat, repl)[k];
              r.source in listing && !Hidden(r.source) && r.target == ReplaceFirst(r.source, pat, repl)
    ensures forall x :: x in listing && !Hidden(x) ==> Rename(x, ReplaceFirst(x, pat, repl)) in Substitutions(listing, pat, repl)
    ensures Substitutions(listing, pat, repl) == [] <==> forall x :: x in listing ==> Hidden(x)
    decreases |listing|
  {
    if listing != [] {
      var init := listing[..|listing| - 1];
      var x := listing[|listing| - 1];
      SubstitutionsSpec(init, pat, repl);
      assert listing == init + [x];
    }
  }

  /** Where no name contains `pat`, `replace_ss` renames every visible entry to itself and the root is unchanged. */
  lemma SubstituteNothing(names: seq<string>, folders: map<string, seq<string>>, pat: string, repl: string)
    requires forall x :: x in names ==> !Contains(x, pat)
    ensures ApplyAtRoot(names, folders, Substitutions(LexSort(names), pat, repl)) == (names, folders)
  {
    var plan := Substitutions(LexSort(names), pat, repl);
    SubstitutionsSpec(LexSort(names), pat, repl);
    forall k | 0 <= k < |plan| ensures plan[k].source == plan[k].target {
      assert plan[k].source in multiset(LexSort(names));
      ReplaceFirstSpec(plan[k].source, pat, repl);
    }
    IdentityAtRoot(names, folders, plan);
  }

  lemma {:induction false} IdentityAtRoot(names: seq<string>, folders: map<string, seq<string>>, plan: seq<Rename>)
    requires forall k :: 0 <= k < |plan| ==> plan[k].source == plan[k].target
    ensures ApplyAtRoot(names, folders, plan) == (names, folders)
    decreases |plan|
  {
    if plan != [] {
      var init := plan[..|plan| - 1];
      assert forall k :: 0 <= k < |init| ==> init[k] == plan[k];
      IdentityAtRoot(names, folders, init);
    }
  }

  // ---------------------------------------------------------------------
  // The season-folder passes
  // ---------------------------------------------------------------------

  /** Which pass `main` runs: `add_numbering`, or `replace_absolute` with a number of episodes per file. */
  datatype Mode = Preserve | Absolute(perFile: nat)

  /** The passes the program can run: `replace_absolute` needs at least one episode per file. */
  predicate Supported(mode: Mode) {
    mode.Absolute? ==> mode.perFile >= 1
  }

  /** The renames of one pass over a folder with number `season` and listing `listing`. */
  function FolderPlan(cfg: Config, mode: Mode, season: string, listing: seq<string>): seq<Rename>
    requires IsToken(season) && Supported(mode)
  {
    var files := Ordered(LexSort(listing));
    match mode
    case Preserve => MarkerPlan(cfg, season, files)
    case Absolute(k) => AbsolutePlan(cfg, season, files, k)
  }

  /** The listing of folder `f` after one pass: renamed only in a folder whose name has a number, and only without "noact". */
  function Pass(cfg: Config, mode: Mode, f: string, listing: seq<string>): seq<string>
    requires Supported(mode)
  {
    if HasDigit(f) && !NoAct(cfg) then ApplyRenames(listing, FolderPlan(cfg, mode, FirstToken(f), listing))
    else listing
  }

  /** Every folder of `before` is `after`'s folder after one pass, and no folder comes or goes. */
  predicate Renumbered(cfg: Config, mode: Mode, before: map<string, seq<string>>, after: map<string, seq<string>>)
    requires Supported(mode)
  {
    after.Keys == before.Keys &&
    forall f :: f in before ==> after[f] == Pass(cfg, mode, f, before[f])
  }

  /** A pass has something to work on: a folder whose name has a number holding a file whose name has one. */
  predicate Matched(folders: map<string, seq<string>>) {
    exists f :: f in folders && Numbered(f, folders[f])
  }

  /** Folder `f` has a number in its name and holds a file with a number in its name. */
  predicate Numbered(f: string, listing: seq<string>) {
    HasDigit(f) && exists x :: x in listing && HasDigit(x)
  }

  /** A folder's processing order is non-empty exactly when one of its names has a number. */
  lemma ProcessedIff(listing: seq<string>)
    ensures Ordered(LexSort(listing)) != [] <==> exists x :: x in listing && HasDigit(x)
  {
    var r := Ordered(LexSort(listing));
    OrderedCorrect(listing);
    if r != [] {
      assert multiset(r)[r[0]] > 0;
      assert r[0] in listing;
    }
    if exists x :: x in listing && HasDigit(x) {
      var x :| x in listing && HasDigit(x);
      assert multiset(r)[x] > 0;
    }
  }

  /** With "noact" neither pass changes any folder. */
  lemma NoActUnchanged(cfg: Config, mode: Mode, before: map<string, seq<string>>, after: map<string, seq<string>>)
    requires Supported(mode) && NoAct(cfg) && Renumbered(cfg, mode, before, after)
    ensures after == before
  {
  }

  /** `add_numbering` leaves a folder with no marker in any name as it is. */
  lemma UnmarkedFolder(cfg: Config, f: string, listing: seq<string>)
    requires forall x :: x in listing ==> !Contains(x, cfg.marker)
    ensures Pass(cfg, Preserve, f, listing) == listing
  {
    if HasDigit(f) && !NoAct(cfg) {
      var season := FirstToken(f);
      var files := Ordered(LexSort(listing));
      var plan := FolderPlan(cfg, Preserve, season, listing);
      OrderedCorrect(listing);
      forall k | 0 <= k < |plan| ensures plan[k].source == plan[k].target {
        MarkerTarget(cfg, season, files, k);
        assert multiset(files)[files[k]] > 0;
      }
      ApplyIdentity(listing, plan);
    }
  }

  // ---------------------------------------------------------------------
  // The root directory
  // ---------------------------------------------------------------------

  /** The directory at one root path. */
  class Library {
    /** The names `os.listdir` gives for the root. */
    var entries: seq<string>
    /** The listing of each entry of the root that is a directory. */
    var folders: map<string, seq<string>>

    /** A directory listing: non-empty, distinct names, and only entries are folders. */
    predicate Valid()
      reads this
    {
      Distinct(entries) &&
      (forall x :: x in entries ==> |x| > 0) &&
      (forall f :: f in folders ==> f in entries)
    }

    constructor (entries: seq<string>, folders: map<string, seq<string>>)
      ensures this.entries == entries && this.folders == folders
    {
      this.entries := entries;
      this.folders := folders;
    }

    /** `get_content(root, directories = True)`: the folders of the root, sorted. */
    function Directories(): seq<string>
      reads this
    {
      LexSort(FoldersIn(entries, folders))
    }

    /** `os.rename(root + a, root + b)`. */
    method RenameEntry(a: string, b: string)
      modifies this
      ensures entries == RenameIn(old(entries), a, b)
      ensures folders == MoveFolder(old(folders), old(entries), a, b)
    {
      folders := MoveFolder(folders, entries, a, b);
      entries := RenameIn(entries, a, b);
    }

    /** `os.rename(root + f + "/" + a, root + f + "/" + b)`. */
    method RenameInFolder(f: string, a: string, b: string)
      requires f in folders
      modifies this
      ensures entries == old(entries)
      ensures folders == old(folders)[f := RenameIn(old(folders)[f], a, b)]
    {
      folders := folders[f := RenameIn(folders[f], a, b)];
    }

    /** Issues the renames of a plan in folder `f`, one file after the other. */
    method ApplyPlan(f: string, plan: seq<Rename>)
      requires f in folders
      modifies this
      ensures entries == old(entries)
      ensures folders == old(folders)[f := ApplyRenames(old(folders)[f], plan)]
    {
      for k := 0 to |plan|
        invariant entries == old(entries)
        invariant folders == old(folders)[f := ApplyRenames(old(folders)[f], plan[..k])]
      {
        assert plan[..k + 1][..k] == plan[..k];
        RenameInFolder(f, plan[k].source, plan[k].target);
      }
      assert plan[..|plan|] == plan;
    }

    /**
     * `replace_ss`: every visible entry of the root, in sorted order, is
     * renamed with its first `pat` replaced by `repl`.  The result is true
     * exactly when the root has a visible entry.
     */
    method ReplaceSubstring(pat: string, repl: string) returns (positive: bool)
      requires Valid()
      modifies this
      ensures positive <==> exists x :: x in old(entries) && !Hidden(x)
      ensures (entries, folders) == ApplyAtRoot(old(entries), old(folders), Substitutions(LexSort(old(entries)), pat, repl))
      ensures Distinct(entries) && forall f :: f in folders ==> f in entries
      ensures (forall x :: x in old(entries) && !Hidden(x) ==> |ReplaceFirst(x, pat, repl)| > 0) ==> Valid()
    {
      SubstitutionsValid(entries, folders, pat, repl);
      var folderList := LexSort(entries);
      SortedNamesNonEmpty(entries);
      positive := SubstituteAll(folderList, pat, repl);
      SubstitutionsSpec(folderList, pat, repl);
      VisibleSorted(old(entries), folderList);
    }

    /** The loop of `replace_ss` over a sorted listing of non-empty names. */
    method SubstituteAll(listing: seq<string>, pat: string, repl: string) returns (positive: bool)
      requires forall k :: 0 <= k < |listing| ==> |listing[k]| > 0
      modifies this
      ensures (entries, folders) == ApplyAtRoot(old(entries), old(folders), Substitutions(listing, pat, repl))
      ensures positive <==> Substitutions(listing, pat, repl) != []
    {
      positive := false;
      var folderList := listing;
      ghost var names, dirs := entries, folders;
      for n := 0 to |folderList|
        invariant |folderList| == |listing|
        invariant forall k :: n <= k < |folderList| ==> folderList[k] == listing[k]
        invariant (entries, folders) == ApplyAtRoot(names, dirs, Substitutions(listing[..n], pat, repl))
        invariant positive <==> Substitutions(listing[..n], pat, repl) != []
      {
        if '.' != folderList[n][0] {
          var newName := RenameVisible(names, dirs, listing, n, folderList[n], pat, repl);
          folderList := folderList[n := newName];
          positive := true;
        } else {
          assert Hidden(listing[n]);
          SubstitutionsStep(listing, n, pat, repl);
        }
      }
      assert listing[..|listing|] == listing;
    }

    /** One step of `replace_ss`: the visible entry `listing[n]` gets its new name. */
    method RenameVisible(ghost names: seq<string>, ghost dirs: map<string, seq<string>>, ghost listing: seq<string>,
                         n: nat, name: string, pat: string, repl: string) returns (newName: string)
      requires n < |listing| && name == listing[n] && !Hidden(name)
      requires (entries, folders) == ApplyAtRoot(names, dirs, Substitutions(listing[..n], pat, repl))
      modifies this
      ensures newName == ReplaceFirst(listing[n], pat, repl)
      ensures (entries, folders) == ApplyAtRoot(names, dirs, Substitutions(listing[..n + 1], pat, repl))
      ensures Substitutions(listing[..n + 1], pat, repl) != []
    {
      newName := ReplaceFirst(name, pat, repl);
      SubstitutionsStep(listing, n, pat, repl);
      ApplyAtRootStep(names, dirs, Substitutions(listing[..n], pat, repl), Rename(name, newName));
      RenameEntry(name, newName);
    }

    /**
     * The work of `add_numbering` or `replace_absolute` on folder `f`: its
     * plan, when its name has a number, and the renames unless "noact" is
     * set.  The result is true when the folder holds a numbered file.
     */
    method RenumberFolder(cfg: Config, mode: Mode, f: string) returns (found: bool)
      requires Supported(mode) && f in folders
      modifies this
      ensures entries == old(entries)
      ensures folders == old(folders)[f := Pass(cfg, mode, f, old(folders)[f])]
      ensures found <==> Numbered(f, old(folders)[f])
    {
      found := false;
      var listing := folders[f];
      if |DigitRuns(f)| > 0 {
        var season := DigitRuns(f)[0];
        var plan;
        plan, found := PlanFolder(cfg, mode, season, listing);
        PassByPlan(cfg, mode, f, listing, plan);
        if !NoAct(cfg) {
          ApplyPlan(f, plan);
        }
      } else {
        assert !HasDigit(f);
        assert folders == old(folders)[f := Pass(cfg, mode, f, listing)];
      }
    }

    /**
     * The folder loop of `add_numbering` and `replace_absolute`: every folder
     * of the root whose name has a number, in sorted order, gets the renames
     * of its plan, unless "noact" is set.  The result is true exactly when
     * some such folder holds a file whose name has a number.
     */
    method Renumber(cfg: Config, mode: Mode) returns (positive: bool)
      requires Valid() && Supported(mode)
      modifies this
      ensures Valid()
      ensures entries == old(entries)
      ensures Renumbered(cfg, mode, old(folders), folders)
      ensures positive <==> Matched(old(folders))
    {
      var folderList := Directories();
      DirectoriesSpec(entries, folders);
      PassAllRenumbers(cfg, mode, folders, folderList);
      positive := PassFolders(cfg, mode, folderList);
    }

    /** The folders of `folderList` visited in order, each given its pass; true when one of them is numbered. */
    method PassFolders(cfg: Config, mode: Mode, folderList: seq<string>) returns (positive: bool)
      requires Supported(mode) && Distinct(folderList)
      requires forall k :: 0 <= k < |folderList| ==> folderList[k] in folders
      modifies this
      ensures entries == old(entries)
      ensures folders == PassAll(cfg, mode, old(folders), folderList)
      ensures positive <==> AnyNumbered(old(folders), folderList)
    {
      positive := false;
      for n := 0 to |folderList|
        invariant entries == old(entries)
        invariant folders == PassAll(cfg, mode, old(folders), folderList[..n])
        invariant positive <==> AnyNumbered(old(folders), folderList[..n])
      {
        var f := folderList[n];
        PassAllStep(cfg, mode, old(folders), folderList, n);
        var found := RenumberFolder(cfg, mode, f);
        if found {
          positive := true;
        }
      }
      assert folderList[..|folderList|] == folderList;
    }
  }

  /** Visiting every folder once, in any order, is one pass over the root. */
  lemma PassAllRenumbers(cfg: Config, mode: Mode, before: map<string, seq<string>>, folderList: seq<string>)
    requires Supported(mode) && Distinct(folderList)
    requires forall f :: f in before <==> exists k :: 0 <= k < |folderList| && folderList[k] == f
    ensures Renumbered(cfg, mode, before, PassAll(cfg, mode, before, folderList))
    ensures AnyNumbered(before, folderList) <==> Matched(before)
  {
    PassAllSpec(cfg, mode, before, folderList);
    AnyNumberedIff(before, folderList);
  }

  /** Some folder of `done` is numbered in `before`. */
  predicate AnyNumbered(before: map<string, seq<string>>, done: seq<string>)
    decreases |done|
  {
    if done == [] then false
    else
      var f := done[|done| - 1];
      AnyNumbered(before, done[..|done| - 1]) || (f in before && Numbered(f, before[f]))
  }

  lemma {:induction false} AnyNumberedIff(before: map<string, seq<string>>, done: seq<string>)
    requires forall f :: f in before <==> exists k :: 0 <= k < |done| && done[k] == f
    ensures AnyNumbered(before, done) <==> Matched(before)
  {
    AnyNumberedMembers(before, done);
    if Matched(before) {
      var f :| f in before && Numbered(f, before[f]);
      var k :| 0 <= k < |done| && done[k] == f;
    }
  }

  lemma {:induction false} AnyNumberedMembers(before: map<string, seq<string>>, done: seq<string>)
    ensures AnyNumbered(before, done) <==> exists k :: 0 <= k < |done| && done[k] in before && Numbered(done[k], before[done[k]])
    decreases |done|
  {
    if done != [] {
      var init := done[..|done| - 1];
      AnyNumberedMembers(before, init);
      assert forall k :: 0 <= k < |init| ==> init[k] == done[k];
    }
  }

  /** One more folder visited: it still had its first listing, and now has its pass. */
  lemma PassAllStep(cfg: Config, mode: Mode, before: map<string, seq<string>>, folderList: seq<string>, n: nat)
    requires Supported(mode) && Distinct(folderList) && n < |folderList| && folderList[n] in before
    ensures var f := folderList[n];
            PassAll(cfg, mode, before, folderList[..n])[f] == before[f] &&
            PassAll(cfg, mode, before, folderList[..n + 1]) == PassAll(cfg, mode, before, folderList[..n])[f := Pass(cfg, mode, f, before[f])] &&
            (AnyNumbered(before, folderList[..n + 1]) <==> AnyNumbered(before, folderList[..n]) || Numbered(f, before[f]))
  {
    var f := folderList[n];
    DistinctPrefix(folderList, n);
    PassAllOutside(cfg, mode, before, folderList[..n], f);
    assert folderList[..n + 1][..n] == folderList[..n];
  }

  /** The pass over a folder whose name has a number is the plan of its first number, unless "noact" is set. */
  lemma PassByPlan(cfg: Config, mode: Mode, f: string, listing: seq<string>, plan: seq<Rename>)
    requires Supported(mode) && HasDigit(f) && plan == FolderPlan(cfg, mode, DigitRuns(f)[0], listing)
    ensures Pass(cfg, mode, f, listing) == if NoAct(cfg) then listing else ApplyRenames(listing, plan)
  {
  }

  /** The plan of one folder, computed by the pass `mode` chooses, and whether the folder holds a numbered file. */
  method PlanFolder(cfg: Config, mode: Mode, season: string, listing: seq<string>) returns (plan: seq<Rename>, found: bool)
    requires IsToken(season) && Supported(mode)
    ensures plan == FolderPlan(cfg, mode, season, listing)
    ensures found <==> exists x :: x in listing && HasDigit(x)
  {
    ProcessedIff(listing);
    var files := Ordered(LexSort(listing));
    match mode {
      case Preserve =>
        plan := NumberMarkers(cfg, season, files);
      case Absolute(k) =>
        plan := ConvertAbsolute(cfg, season, files, k);
    }
    found := |files| > 0;
  }

  /** The folders after passes over the folders `done`, one after the other. */
  function PassAll(cfg: Config, mode: Mode, before: map<string, seq<string>>, done: seq<string>): (after: map<string, seq<string>>)
    requires Supported(mode)
    ensures after.Keys == before.Keys
    decreases |done|
  {
    if done == [] then before
    else
      var f := done[|done| - 1];
      var m := PassAll(cfg, mode, before, done[..|done| - 1]);
      if f in m then m[f := Pass(cfg, mode, f, m[f])] else m
  }

  /** A folder not yet visited keeps its listing. */
  lemma {:induction false} PassAllOutside(cfg: Config, mode: Mode, before: map<string, seq<string>>, done: seq<string>, f: string)
    requires Supported(mode) && f in before && f !in done
    ensures PassAll(cfg, mode, before, done)[f] == before[f]
    decreases |done|
  {
    if done != [] {
      assert f != done[|done| - 1];
      PassAllOutside(cfg, mode, before, done[..|done| - 1], f);
    }
  }

  /** Visiting distinct folders passes over each visited folder once and leaves the others alone. */
  lemma {:induction false} PassAllSpec(cfg: Config, mode: Mode, before: map<string, seq<string>>, done: seq<string>)
    requires Supported(mode) && Distinct(done)
    ensures forall f :: f in before ==>
              PassAll(cfg, mode, before, done)[f] == if f in done then Pass(cfg, mode, f, before[f]) else before[f]
    decreases |done|
  {
    if done != [] {
      var init := done[..|done| - 1];
      var g := done[|done| - 1];
      assert Distinct(init);
      DistinctPrefix(done, |done| - 1);
      PassAllSpec(cfg, mode, before, init);
      assert forall f :: f in done <==> f in init || f == g by {
        assert done == init + [g];
      }
    }
  }

  /**
   * `replace_ss` keeps a root listing a directory listing: distinct names and
   * every folder an entry, and non-empty names when no visible name is
   * rewritten to the empty name.
   */
  lemma SubstitutionsValid(names: seq<string>, folders: map<string, seq<string>>, pat: string, repl: string)
    requires Distinct(names) && (forall x :: x in names ==> |x| > 0) && forall f :: f in folders ==> f in names
    ensures var (n, m) := ApplyAtRoot(names, folders, Substitutions(LexSort(names), pat, repl));
            Distinct(n) && (forall f :: f in m ==> f in n) &&
            ((forall x :: x in names && !Hidden(x) ==> |ReplaceFirst(x, pat, repl)| > 0) ==> forall x :: x in n ==> |x| > 0)
  {
    var listing := LexSort(names);
    var plan := Substitutions(listing, pat, repl);
    SubstitutionsSpec(listing, pat, repl);
    ApplyAtRootValid(names, folders, plan);
    if forall x :: x in names && !Hidden(x) ==> |ReplaceFirst(x, pat, repl)| > 0 {
      forall k | 0 <= k < |plan| ensures |plan[k].target| > 0 {
        assert plan[k].source in multiset(listing);
      }
    }
  }

  /** Sorting a listing of non-empty names gives non-empty names. */
  lemma SortedNamesNonEmpty(names: seq<string>)
    requires forall x :: x in names ==> |x| > 0
    ensures forall k :: 0 <= k < |LexSort(names)| ==> |LexSort(names)[k]| > 0
  {
    forall k | 0 <= k < |LexSort(names)| ensures |LexSort(names)[k]| > 0 {
      assert LexSort(names)[k] in multiset(names);
    }
  }

  /** Sorting the root listing keeps its names, so a visible one is found in either. */
  lemma VisibleSorted(names: seq<string>, listing: seq<string>)
    requires multiset(listing) == multiset(names)
    ensures (exists k :: 0 <= k < |listing| && !Hidden(listing[k])) <==> exists x :: x in names && !Hidden(x)
  {
    if exists k :: 0 <= k < |listing| && !Hidden(listing[k]) {
      var k :| 0 <= k < |listing| && !Hidden(listing[k]);
      assert listing[k] in multiset(names);
    }
    if exists x :: x in names && !Hidden(x) {
      var x :| x in names && !Hidden(x);
      assert x in multiset(listing);
      var k :| 0 <= k < |listing| && listing[k] == x;
    }
  }

  /** One more name of the listing adds at most one rename to the plan of `replace_ss`. */
  lemma SubstitutionsStep(listing: seq<string>, n: nat, pat: string, repl: string)
    requires n < |listing|
    ensures Hidden(listing[n]) ==> Substitutions(listing[..n + 1], pat, repl) == Substitutions(listing[..n], pat, repl)
    ensures !Hidden(listing[n]) ==>
              Substitutions(listing[..n + 1], pat, repl) == Substitutions(listing[..n], pat, repl) + [Rename(listing[n], ReplaceFirst(listing[n], pat, repl))]
  {
    assert listing[..n + 1][..n] == listing[..n];
  }

  /** One more rename at the root renames the entry and moves its folder. */
  lemma ApplyAtRootStep(names: seq<string>, folders: map<string, seq<string>>, plan: seq<Rename>, r: Rename)
    ensures var (n, f) := ApplyAtRoot(names, folders, plan);
            ApplyAtRoot(names, folders, plan + [r]) == (RenameIn(n, r.source, r.target), MoveFolder(f, n, r.source, r.target))
  {
    assert (plan + [r])[..|plan|] == plan;
  }

  /** The sorted folders of a root: distinct, and exactly its folders. */
  lemma DirectoriesSpec(names: seq<string>, folders: map<string, seq<string>>)
    requires Distinct(names) && forall f :: f in folders ==> f in names
    ensures var d := LexSort(FoldersIn(names, folders));
            Distinct(d) && forall f :: f in folders <==> exists k :: 0 <= k < |d| && d[k] == f
  {
    var fi := FoldersIn(names, folders);
    var d := LexSort(fi);
    FoldersInSpec(names, folders);
    LexSortCorrect(fi);
    forall f ensures f in folders <==> exists k :: 0 <= k < |d| && d[k] == f {
      if f in folders {
        assert f in multiset(d);
        var k :| 0 <= k < |d| && d[k] == f;
      }
      if exists k :: 0 <= k < |d| && d[k] == f {
        var k :| 0 <= k < |d| && d[k] == f;
        assert f in multiset(fi);
      }
    }
  }

  /** The entries of `names` that are folders, in order. */
  function FoldersIn(names: seq<string>, folders: map<string, seq<string>>): seq<string>
    decreases |names|
  {
    if names == [] then []
    else (if names[0] in folders then [names[0]] else []) + FoldersIn(names[1..], folders)
  }

  lemma {:induction false} FoldersInSpec(names: seq<string>, folders: map<string, seq<string>>)
    ensures forall x :: x in FoldersIn(names, folders) <==> x in names && x in folders
    ensures Distinct(names) ==> Distinct(FoldersIn(names, folders))
    decreases |names|
  {
    if names != [] {
      var rest := names[1..];
      FoldersInSpec(rest, folders);
      assert names == [names[0]] + rest;
      if Distinct(names) {
        DistinctCons(names);
        var h := if names[0] in folders then [names[0]] else [];
        var r := FoldersIn(rest, folders);
        forall i, j | 0 <= i < j < |h + r| ensures (h + r)[i] != (h + r)[j] {
          if i < |h| {
            assert (h + r)[i] == names[0] && (h + r)[j] == r[j - |h|];
          } else {
            assert (h + r)[i] == r[i - |h|] && (h + r)[j] == r[j - |h|];
          }
        }
      }
    }
  }

  // ---------------------------------------------------------------------
  // main
  // ---------------------------------------------------------------------

  /** The pass `main` chooses: "preserve" wins, then "doubleep" doubles the episodes per file. */
  function Dispatch(options: seq<string>): (mode: Mode)
    ensures Supported(mode)
    ensures mode == Preserve <==> "preserve" in options
    ensures mode.Absolute? ==> (mode.perFile == 2 <==> "doubleep" in options) && (mode.perFile == 1 <==> "doubleep" !in options)
  {
    if "preserve" in options then Preserve
    else if "doubleep" !in options then Absolute(1)
    else Absolute(2)
  }

  /** No other root is the same directory as `roots[k]`. */
  predicate Single(roots: seq<Library>, k: nat)
    requires k < |roots|
  {
    forall i :: 0 <= i < |roots| && i != k ==> roots[i] != roots[k]
  }

  /**
   * The loop of `main` over the root paths: each root gets the pass the
   * options choose.  Roots keep their entries and folders; a root listed once
   * is renumbered as one pass describes; with "noact" nothing changes.
   */
  method Run(cfg: Config, roots: seq<Library>)
    requires |roots| == |cfg.paths|
    requires forall k :: 0 <= k < |roots| ==> roots[k].Valid()
    modifies set k | 0 <= k < |roots| :: roots[k]
    ensures forall k :: 0 <= k < |roots| ==>
              roots[k].Valid() && roots[k].entries == old(roots[k].entries) && roots[k].folders.Keys == old(roots[k].folders).Keys
    ensures forall k :: 0 <= k < |roots| && Single(roots, k) ==>
              Renumbered(cfg, Dispatch(cfg.options), old(roots[k].folders), roots[k].folders)
    ensures NoAct(cfg) ==> forall k :: 0 <= k < |roots| ==> roots[k].folders == old(roots[k].folders)
  {
    var mode := Dispatch(cfg.options);
    for k := 0 to |roots|
      invariant forall j :: 0 <= j < |roots| ==>
                  roots[j].Valid() && roots[j].entries == old(roots[j].entries) && roots[j].folders.Keys == old(roots[j].folders).Keys
      invariant forall j :: 0 <= j < k && Single(roots, j) ==> Renumbered(cfg, mode, old(roots[j].folders), roots[j].folders)
      invariant forall j :: k <= j < |roots| && Single(roots, j) ==> roots[j].folders == old(roots[j].folders)
      invariant NoAct(cfg) ==> forall j :: 0 <= j < |roots| ==> roots[j].folders == old(roots[j].folders)
    {
      ghost var before := roots[k].folders;
      var positive := roots[k].Renumber(cfg, mode);
      if NoAct(cfg) {
        NoActUnchanged(cfg, mode, before, roots[k].folders);
      }
    }
  }
}
