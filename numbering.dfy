/**
 * The per-folder renaming plans of `add_numbering` (a marker replaced by a
 * season/episode/part tag) and `replace_absolute` (the first number of a
 * name replaced by season/episode labels).  Both work on the folder's
 * numbered files in their final order and yield, file by file, the old name
 * and the new one.
 */
module Numbering {
  import opened Text
  import opened Tokens
  import opened Padding
  import opened Arguments

  /** One planned rename inside a season folder. */
  datatype Rename = Rename(source: string, target: string)

  /** Every name carries at least one number. */
  predicate AllNumbered(files: seq<string>) {
    forall k :: 0 <= k < |files| ==> HasDigit(files[k])
  }

  /** The list `numbers`: the first token of every file. */
  function FirstTokens(files: seq<string>): (t: seq<string>)
    requires AllNumbered(files)
    ensures |t| == |files|
  {
    seq(|files|, k requires 0 <= k < |files| => FirstToken(files[k]))
  }

  /** The plan `[entry(0), ..., entry(n - 1)]`. */
  function Entries(entry: nat --> Rename, n: nat): (plan: seq<Rename>)
    requires forall k: nat :: k < n ==> entry.requires(k)
    ensures |plan| == n
    decreases n
  {
    if n == 0 then [] else Entries(entry, n - 1) + [entry(n - 1)]
  }

  /** Entry `m` of a plan renames file `m`. */
  lemma {:induction false} EntriesAt(entry: nat --> Rename, n: nat, m: nat)
    requires forall k: nat :: k < n ==> entry.requires(k)
    requires m < n
    ensures Entries(entry, n)[m] == entry(m)
    decreases n
  {
    if m < n - 1 {
      EntriesAt(entry, n - 1, m);
    }
  }

  // ---------------------------------------------------------------------
  // add_numbering
  // ---------------------------------------------------------------------

  /**
   * The episode of position `m`: the first file is episode 1 and every file
   * whose token differs (as text) from the previous file's starts the next one.
   */
  function EpisodeAt(t: seq<string>, m: nat): nat
    requires m < |t|
  {
    if m == 0 then 1 else EpisodeAt(t, m - 1) + (if t[m] != t[m - 1] then 1 else 0)
  }

  /** Where the run of equal tokens that contains position `m` begins. */
  function RunStart(t: seq<string>, m: nat): (r: nat)
    requires m < |t|
    ensures r <= m
    ensures forall k :: r <= k <= m ==> t[k] == t[m]
    ensures r == 0 || t[r - 1] != t[m]
  {
    if m == 0 || t[m] != t[m - 1] then m else RunStart(t, m - 1)
  }

  /**
   * The part of position `m`: 0 when its token occurs once in the folder,
   * otherwise its place (from 1) in its run of equal tokens.
   */
  function PartIndex(t: seq<string>, m: nat): nat
    requires m < |t|
  {
    if multiset(t)[t[m]] > 1 then m - RunStart(t, m) + 1 else 0
  }

  /** The counters move as the loop moves them: a new token starts a new episode and a new part count. */
  lemma CountersStep(t: seq<string>, m: nat)
    requires 0 < m < |t|
    ensures EpisodeAt(t, m) == if t[m] != t[m - 1] then EpisodeAt(t, m - 1) + 1 else EpisodeAt(t, m - 1)
    ensures PartIndex(t, m) ==
            if multiset(t)[t[m]] <= 1 then 0
            else if t[m] != t[m - 1] then 1
            else PartIndex(t, m - 1) + 1
  {
    if t[m] == t[m - 1] {
      assert multiset(t)[t[m - 1]] == multiset(t)[t[m]];
    }
  }

  /** The text that replaces the marker: a multi-part template when `part` is positive. */
  function MarkerLabel(cfg: Config, season: string, total: nat, episode: nat, part: nat): string
    requires IsToken(season)
  {
    if part > 0 then
      cfg.fsep + "S" + SeasonField(season) + "E" + EpisodeField(total, episode) + " Part " + PartField(part) + cfg.esep
    else
      cfg.fsep + "S" + SeasonField(season) + "E" + EpisodeField(total, episode) + cfg.esep
  }

  /** The rename of file `m`, whose folder's first tokens are `t`. */
  function MarkerEntry(cfg: Config, season: string, files: seq<string>, t: seq<string>, m: nat): Rename
    requires IsToken(season) && |t| == |files| && m < |files|
  {
    Rename(files[m], ReplaceFirst(files[m], cfg.marker,
                                  MarkerLabel(cfg, season, |files|, EpisodeAt(t, m), PartIndex(t, m))))
  }

  /** The renames of the files of a folder, one function of the file's position. */
  function MarkerEntries(cfg: Config, season: string, files: seq<string>, t: seq<string>): nat --> Rename
    requires IsToken(season) && |t| == |files|
  {
    (m: nat) requires m < |files| => MarkerEntry(cfg, season, files, t, m)
  }

  /** What `add_numbering` plans for the ordered numbered files of one season folder. */
  function MarkerPlan(cfg: Config, season: string, files: seq<string>): seq<Rename>
    requires IsToken(season) && AllNumbered(files)
  {
    Entries(MarkerEntries(cfg, season, files, FirstTokens(files)), |files|)
  }

  /**
   * One pass of the loop of `add_numbering`, for file `m` of a folder whose
   * first tokens are `numbers`: a token other than the previous one starts a
   * new episode and resets the part counter; a token that occurs more than
   * once in the folder counts up the part and takes the multi-part template.
   */
  method NumberFile(cfg: Config, season: string, numbers: seq<string>, m: nat,
                    episode: nat, part: nat, last: Option<string>)
    returns (episode': nat, part': nat, last': Option<string>, tag: string)
    requires IsToken(season) && m < |numbers|
    requires m == 0 ==> last == None && episode == 0 && part == 0
    requires m > 0 ==> last == Some(numbers[m - 1]) && episode == EpisodeAt(numbers, m - 1) && part == PartIndex(numbers, m - 1)
    ensures last' == Some(numbers[m])
    ensures episode' == EpisodeAt(numbers, m) && part' == PartIndex(numbers, m)
    ensures tag == MarkerLabel(cfg, season, |numbers|, episode', part')
  {
    var token := numbers[m];
    episode', part' := episode, part;
    if m > 0 {
      CountersStep(numbers, m);
    }
    if last != Some(token) {
      episode' := episode' + 1;
      part' := 0;
    }
    last' := Some(token);
    if multiset(numbers)[token] > 1 {
      part' := part' + 1;
      tag := cfg.fsep + "S" + SeasonField(season) + "E" + EpisodeField(|numbers|, episode')
             + " Part " + PartField(part') + cfg.esep;
    } else {
      part' := 0;
      tag := cfg.fsep + "S" + SeasonField(season) + "E" + EpisodeField(|numbers|, episode') + cfg.esep;
    }
  }

  /**
   * The loop of `add_numbering` over one folder: an episode counter, a part
   * counter and the previous token (none before the first file).
   */
  method NumberMarkers(cfg: Config, season: string, files: seq<string>) returns (plan: seq<Rename>)
    requires IsToken(season) && AllNumbered(files)
    ensures plan == MarkerPlan(cfg, season, files)
  {
    var numbers := FirstTokens(files);
    var episode := 0;
    var part := 0;
    var last: Option<string> := None;
    plan := [];
    for m := 0 to |files|
      invariant plan == Entries(MarkerEntries(cfg, season, files, numbers), m)
      invariant m == 0 ==> last == None && episode == 0 && part == 0
      invariant m > 0 ==> last == Some(numbers[m - 1])
      invariant m > 0 ==> episode == EpisodeAt(numbers, m - 1) && part == PartIndex(numbers, m - 1)
    {
      var tag;
      episode, part, last, tag := NumberFile(cfg, season, numbers, m, episode, part, last);
      MarkerEntriesStep(cfg, season, files, numbers, m);
      plan := plan + [Rename(files[m], ReplaceFirst(files[m], cfg.marker, tag))];
    }
  }

  /** The plan of the first `m + 1` files extends that of the first `m` by file `m`'s rename. */
  lemma MarkerEntriesStep(cfg: Config, season: string, files: seq<string>, t: seq<string>, m: nat)
    requires IsToken(season) && |t| == |files| && m < |files|
    ensures Entries(MarkerEntries(cfg, season, files, t), m + 1) ==
            Entries(MarkerEntries(cfg, season, files, t), m) +
            [Rename(files[m], ReplaceFirst(files[m], cfg.marker, MarkerLabel(cfg, season, |files|, EpisodeAt(t, m), PartIndex(t, m))))]
  {
  }

  /** Episodes start at 1 and grow by at most one per file. */
  lemma {:induction false} EpisodeMonotone(t: seq<string>, k: nat, m: nat)
    requires k <= m < |t|
    ensures EpisodeAt(t, 0) == 1
    ensures EpisodeAt(t, k) <= EpisodeAt(t, m) <= EpisodeAt(t, k) + (m - k)
    decreases m - k
  {
    if k < m {
      EpisodeMonotone(t, k, m - 1);
    }
  }

  /** Two positions share an episode exactly when every file between them has the same token. */
  lemma {:induction false} EpisodeSameIff(t: seq<string>, k: nat, m: nat)
    requires k <= m < |t|
    ensures EpisodeAt(t, k) == EpisodeAt(t, m) <==> forall i :: k <= i <= m ==> t[i] == t[k]
    decreases m - k
  {
    if k < m {
      EpisodeSameIff(t, k, m - 1);
      EpisodeMonotone(t, k, m - 1);
      if EpisodeAt(t, k) == EpisodeAt(t, m) {
        assert t[m] == t[m - 1];
      }
    }
  }

  /** The tokens are in non-decreasing order of their values. */
  predicate ValueSorted(t: seq<string>) {
    (forall i :: 0 <= i < |t| ==> AllDigits(t[i])) &&
    forall i, j :: 0 <= i <= j < |t| ==> Value(t[i]) <= Value(t[j])
  }

  /**
   * In a folder sorted by the value of its first numbers, and whose numbers
   * are written without leading zeros, two files share an episode exactly
   * when they share their first number.
   */
  lemma EpisodeByNumber(t: seq<string>, k: nat, m: nat)
    requires forall i :: 0 <= i < |t| ==> Canonical(t[i])
    requires ValueSorted(t)
    requires k <= m < |t|
    ensures EpisodeAt(t, k) == EpisodeAt(t, m) <==> t[k] == t[m]
  {
    EpisodeSameIff(t, k, m);
    if t[k] == t[m] {
      forall i | k <= i <= m ensures t[i] == t[k] {
        CanonicalInjective(t[i], t[k]);
      }
    }
  }

  /**
   * Inside a run of equal tokens the parts count 1, 2, 3, ... from the run's
   * first file, when the token occurs more than once in the folder, and are
   * all 0 otherwise.
   */
  lemma PartsCount(t: seq<string>, k: nat, m: nat)
    requires k <= m < |t|
    requires k == 0 || t[k - 1] != t[k]
    requires forall i :: k <= i <= m ==> t[i] == t[k]
    ensures PartIndex(t, m) == if multiset(t)[t[k]] > 1 then m - k + 1 else 0
  {
  }

  /** A file gets part 0 exactly when its token occurs only once in the folder. */
  lemma PartZeroIff(t: seq<string>, m: nat)
    requires m < |t|
    ensures PartIndex(t, m) == 0 <==> multiset(t)[t[m]] == 1
  {
    assert t[m] in multiset(t);
  }

  /**
   * A file without the marker keeps its name; otherwise the first
   * occurrence of the marker is replaced by the file's label.
   */
  lemma MarkerTarget(cfg: Config, season: string, files: seq<string>, m: nat)
    requires IsToken(season) && AllNumbered(files) && m < |files|
    ensures |MarkerPlan(cfg, season, files)| == |files|
    ensures var r := MarkerPlan(cfg, season, files)[m];
            var t := FirstTokens(files);
            var tag := MarkerLabel(cfg, season, |files|, EpisodeAt(t, m), PartIndex(t, m));
            r.source == files[m] &&
            (!Contains(files[m], cfg.marker) ==> r.target == files[m]) &&
            (forall i: nat :: OccursAt(files[m], cfg.marker, i) && (forall j: nat :: j < i ==> !OccursAt(files[m], cfg.marker, j))
               ==> r.target == files[m][..i] + tag + files[m][i + |cfg.marker|..])
  {
    var t := FirstTokens(files);
    EntriesAt(MarkerEntries(cfg, season, files, t), |files|, m);
    ReplaceFirstSpec(files[m], cfg.marker, MarkerLabel(cfg, season, |files|, EpisodeAt(t, m), PartIndex(t, m)));
  }

  // ---------------------------------------------------------------------
  // replace_absolute
  // ---------------------------------------------------------------------

  /** The label of one episode: its new index or, with "keepep", the file's old number. */
  function Fragment(cfg: Config, season: string, total: nat, episode: nat, token: string): string
    requires IsToken(season)
  {
    (if KeepEp(cfg) then cfg.fsep + "S" + SeasonField(season) + "E" + token
     else cfg.fsep + "S" + SeasonField(season) + "E" + EpisodeField(total, episode))
    + cfg.esep
  }

  /** The labels of the `count` episodes after episode `first`, one after the other. */
  function AbsoluteLabel(cfg: Config, season: string, total: nat, token: string, first: nat, count: nat): string
    requires IsToken(season)
  {
    if count == 0 then ""
    else AbsoluteLabel(cfg, season, total, token, first, count - 1)
         + Fragment(cfg, season, total, first + count, token)
  }

  /** The episodes the files before file `m` hold. */
  function EpisodesBefore(m: nat, perFile: nat): nat {
    m * perFile
  }

  /** The rename of file `m`: its first number replaced by the labels of episodes `first + 1` to `first + perFile`. */
  function AbsoluteEntry(cfg: Config, season: string, files: seq<string>, perFile: nat, m: nat): Rename
    requires IsToken(season) && AllNumbered(files) && m < |files|
  {
    var token := FirstToken(files[m]);
    Rename(files[m], ReplaceFirst(files[m], token, AbsoluteLabel(cfg, season, |files|, token, EpisodesBefore(m, perFile), perFile)))
  }

  /** The renames of the files of a folder, one function of the file's position. */
  function AbsoluteEntries(cfg: Config, season: string, files: seq<string>, perFile: nat): nat --> Rename
    requires IsToken(season) && AllNumbered(files)
  {
    (m: nat) requires m < |files| => AbsoluteEntry(cfg, season, files, perFile, m)
  }

  /**
   * What `replace_absolute` plans for the ordered numbered files of one
   * season folder: file `m` takes episodes `m * perFile + 1` to
   * `(m + 1) * perFile`, written in place of its first number.
   */
  function AbsolutePlan(cfg: Config, season: string, files: seq<string>, perFile: nat): seq<Rename>
    requires IsToken(season) && AllNumbered(files)
  {
    Entries(AbsoluteEntries(cfg, season, files, perFile), |files|)
  }

  /**
   * The inner loop of `replace_absolute` for one file: one fragment per
   * episode it holds, the new name recomputed after each fragment.  The
   * episode counter enters at `first` and leaves at `first + perFile`.
   */
  method NameFile(cfg: Config, season: string, total: nat, file: string, token: string, first: nat, perFile: nat)
    returns (newName: string, episode: nat)
    requires IsToken(season)
    requires perFile >= 1
    ensures newName == ReplaceFirst(file, token, AbsoluteLabel(cfg, season, total, token, first, perFile))
    ensures episode == first + perFile
  {
    var tag := "";
    newName := file;
    episode := first;
    for i := 0 to perFile
      invariant episode == first + i
      invariant tag == AbsoluteLabel(cfg, season, total, token, first, i)
      invariant i > 0 ==> newName == ReplaceFirst(file, token, tag)
    {
      episode := episode + 1;
      var fragment;
      if KeepEp(cfg) {
        fragment := cfg.fsep + "S" + SeasonField(season) + "E" + token;
      } else {
        fragment := cfg.fsep + "S" + SeasonField(season) + "E" + EpisodeField(total, episode);
      }
      if i < perFile {
        fragment := fragment + cfg.esep;
      }
      tag := tag + fragment;
      newName := ReplaceFirst(file, token, tag);
    }
  }

  /** The outer loop of `replace_absolute`: every numbered file in order, the episode counter carried along. */
  method ConvertAbsolute(cfg: Config, season: string, files: seq<string>, perFile: nat) returns (plan: seq<Rename>)
    requires IsToken(season) && AllNumbered(files)
    requires perFile >= 1
    ensures plan == AbsolutePlan(cfg, season, files, perFile)
  {
    var episode := 0;
    plan := [];
    for m := 0 to |files|
      invariant episode == EpisodesBefore(m, perFile)
      invariant plan == Entries(AbsoluteEntries(cfg, season, files, perFile), m)
    {
      var token := FirstToken(files[m]);
      var newName;
      newName, episode := NameFile(cfg, season, |files|, files[m], token, episode, perFile);
      assert episode == EpisodesBefore(m + 1, perFile);
      plan := plan + [Rename(files[m], newName)];
    }
  }

  /**
   * The first number of a name sits at its first digit, so replacing the
   * first occurrence of its text splices the label in exactly there.
   */
  lemma AbsoluteSplice(s: string, tag: string)
    requires HasDigit(s)
    ensures var i := FirstDigit(s);
            var t := FirstToken(s);
            i + |t| <= |s| && ReplaceFirst(s, t, tag) == s[..i] + tag + s[i + |t|..]
  {
    var i := FirstDigit(s);
    var t := FirstToken(s);
    FirstTokenAt(s);
    NoEarlierOccurrence(s, t, i);
    ReplaceFirstAt(s, t, tag, i);
  }

  /** A string of digits cannot start inside a digit-free prefix. */
  lemma NoEarlierOccurrence(s: string, t: string, i: nat)
    requires IsToken(t) && i <= |s| && NoDigits(s[..i])
    ensures forall j: nat :: j < i ==> !OccursAt(s, t, j)
  {
    forall j: nat | j < i ensures !OccursAt(s, t, j) {
      if j + |t| <= |s| {
        assert !IsDigit(s[..i][j]);
        assert s[j..j + |t|][0] == s[j] == s[..i][j];
      }
    }
  }

  /**
   * `replace_absolute` keeps everything of a name but its first number,
   * which becomes the labels of the file's episodes.
   */
  lemma AbsoluteTarget(cfg: Config, season: string, files: seq<string>, perFile: nat, m: nat)
    requires IsToken(season) && AllNumbered(files) && m < |files|
    ensures |AbsolutePlan(cfg, season, files, perFile)| == |files|
    ensures var r := AbsolutePlan(cfg, season, files, perFile)[m];
            var s := files[m];
            var i := FirstDigit(s);
            var t := FirstToken(s);
            i + |t| <= |s| && r.source == s && NoDigits(s[..i]) &&
            r.target == s[..i] + AbsoluteLabel(cfg, season, |files|, t, EpisodesBefore(m, perFile), perFile) + s[i + |t|..]
  {
    var s := files[m];
    var t := FirstToken(s);
    var tag := AbsoluteLabel(cfg, season, |files|, t, EpisodesBefore(m, perFile), perFile);
    EntriesAt(AbsoluteEntries(cfg, season, files, perFile), |files|, m);
    assert AbsolutePlan(cfg, season, files, perFile)[m] == Rename(s, ReplaceFirst(s, t, tag));
    AbsoluteSplice(s, tag);
  }

  /** With "doubleep" a file holds two consecutive episodes. */
  lemma DoubleEpisode(cfg: Config, season: string, total: nat, token: string, first: nat)
    requires IsToken(season)
    ensures AbsoluteLabel(cfg, season, total, token, first, 2)
            == Fragment(cfg, season, total, first + 1, token) + Fragment(cfg, season, total, first + 2, token)
  {
    assert AbsoluteLabel(cfg, season, total, token, first, 1) == Fragment(cfg, season, total, first + 1, token);
  }

  /** With "keepep" the labels do not depend on the episode counter. */
  lemma {:induction false} KeepEpLabel(cfg: Config, season: string, total: nat, token: string, first: nat, first': nat, count: nat)
    requires IsToken(season) && KeepEp(cfg)
    ensures AbsoluteLabel(cfg, season, total, token, first, count) == AbsoluteLabel(cfg, season, total, token, first', count)
    decreases count
  {
    if count > 0 {
      KeepEpLabel(cfg, season, total, token, first, first', count - 1);
    }
  }
}
