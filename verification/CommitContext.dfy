/** The bounded context of a generated commit message
    (crates/codex-platform/src/git.rs, `commit_message_diff`). */
module CommitContext {

  import opened Bytes
  import opened Numbers
  import opened ByteText
  import opened GitDiff
  import opened Sequences
  import opened Utf8
  import opened Wrappers

  const COMMIT_CONTEXT_BYTES: nat := 20 * 1024
  const COMMIT_CONTEXT_FILES: nat := 128
  const METADATA_BYTES: nat := 2 * 1024 * 1024

  /** What git and the file system hold: the two diffs and the listing as git prints them, the
      contents of an untracked path, and the two conversions to text. */
  datatype Repository = Repository(
    staged: Result<seq<byte>, GitError>,
    unstaged: Result<seq<byte>, GitError>,
    untracked: Result<seq<byte>, GitError>,
    contents: seq<byte> -> Result<seq<byte>, GitError>,
    lossy: seq<byte> -> seq<byte>,
    escaped: seq<byte> -> seq<byte>)

  ghost predicate ConvertsToText(repo: Repository) {
    forall s: seq<byte> :: IsUtf8(repo.lossy(s)) && IsUtf8(repo.escaped(s))
  }

  function Room(text: seq<byte>): nat { SaturatingSub(COMMIT_CONTEXT_BYTES, |text|) }

  /** Git's output is read up to the room there is; what does not fit is dropped and flagged. */
  function AddSection(repo: Repository, context: Bounded, printed: seq<byte>): Bounded {
    var room := Room(context.text);
    Flag(Push(context, repo.lossy(First(printed, room)), COMMIT_CONTEXT_BYTES), |printed| > room)
  }

  function AddFile(f: Format, repo: Repository, context: Bounded, path: seq<byte>, file: seq<byte>): Bounded {
    var diff := DiffWithin(f, repo.escaped(path), file, Room(context.text));
    Flag(Push(context, diff.text, COMMIT_CONTEXT_BYTES), diff.truncated)
  }

  function AddFiles(f: Format, repo: Repository, context: Bounded, paths: seq<seq<byte>>): Result<Bounded, GitError>
    decreases |paths|
  {
    if paths == [] || context.truncated then Ok(context)
    else if Room(context.text) == 0 then Ok(Flag(context, true))
    else
      match repo.contents(paths[0])
      case Err(e) => Err(e)
      case Ok(file) => AddFiles(f, repo, AddFile(f, repo, context, paths[0], file), paths[1..])
  }

  function NonEmpty(pieces: seq<seq<byte>>): seq<seq<byte>> {
    if pieces == [] then [] else (if pieces[0] == [] then [] else [pieces[0]]) + NonEmpty(pieces[1..])
  }

  function Paths(listing: seq<byte>): seq<seq<byte>> { NonEmpty(Split(First(listing, METADATA_BYTES), NUL)) }

  function AddUntracked(f: Format, repo: Repository, context: Bounded, listing: seq<byte>): Result<Bounded, GitError> {
    var paths := Paths(listing);
    match AddFiles(f, repo, context, First(paths, COMMIT_CONTEXT_FILES))
    case Err(e) => Err(e)
    case Ok(next) => Ok(Flag(next, |paths| > COMMIT_CONTEXT_FILES || |listing| > METADATA_BYTES))
  }

  /** The untracked files, which only a context that is still whole gets. */
  function LastSection(f: Format, repo: Repository, context: Bounded): Result<Bounded, GitError> {
    if context.truncated then Ok(context)
    else match repo.untracked
      case Err(e) => Err(e)
      case Ok(listing) => AddUntracked(f, repo, context, listing)
  }

  function UnstagedSections(f: Format, repo: Repository, context: Bounded): Result<Bounded, GitError> {
    match repo.unstaged
    case Err(e) => Err(e)
    case Ok(unstaged) => LastSection(f, repo, AddSection(repo, context, unstaged))
  }

  function CommitContext(f: Format, repo: Repository, includeUnstaged: bool): Result<Bounded, GitError> {
    match repo.staged
    case Err(e) => Err(e)
    case Ok(staged) =>
      var context := AddSection(repo, Bounded([], false), staged);
      if !includeUnstaged || context.truncated then Ok(context) else UnstagedSections(f, repo, context)
  }

  method AppendFiles(f: Format, repo: Repository, text: seq<byte>, paths: seq<seq<byte>>)
    returns (result: Result<Bounded, GitError>)
    requires Sound(f) && ConvertsToText(repo)
    ensures result == AddFiles(f, repo, Bounded(text, false), paths)
  {
    var context := text;
    for i := 0 to |paths|
      invariant AddFiles(f, repo, Bounded(context, false), paths[i..]) == AddFiles(f, repo, Bounded(text, false), paths)
    {
      assert paths[i..][1..] == paths[i + 1..];
      var remaining := Room(context);
      if remaining == 0 {
        return Ok(Bounded(context, true));
      }
      var diff := UntrackedDiff(f, repo.escaped(paths[i]), repo.contents(paths[i]), remaining);
      if diff.Err? {
        return Err(diff.error);
      }
      var truncated;
      context, truncated := PushBoundedText(context, diff.value.text, COMMIT_CONTEXT_BYTES, false);
      truncated := truncated || diff.value.truncated;
      if truncated {
        return Ok(Bounded(context, true));
      }
    }
    result := Ok(Bounded(context, false));
  }

  method AppendSection(repo: Repository, text: seq<byte>, printed: seq<byte>)
    returns (text': seq<byte>, truncated: bool)
    ensures Bounded(text', truncated) == AddSection(repo, Bounded(text, false), printed)
  {
    var room := Room(text);
    var stdout := First(printed, room);
    text', truncated := PushBoundedText(text, repo.lossy(stdout), COMMIT_CONTEXT_BYTES, false);
    truncated := truncated || |printed| > room;
  }

  method CommitMessageDiff(f: Format, repo: Repository, includeUnstaged: bool)
    returns (result: Result<Bounded, GitError>)
    requires Sound(f) && ConvertsToText(repo)
    ensures result == CommitContext(f, repo, includeUnstaged)
  {
    if repo.staged.Err? {
      return Err(repo.staged.error);
    }
    var text, truncated := AppendSection(repo, [], repo.staged.value);
    if includeUnstaged && !truncated {
      if repo.unstaged.Err? {
        return Err(repo.unstaged.error);
      }
      text, truncated := AppendSection(repo, text, repo.unstaged.value);
      if !truncated {
        if repo.untracked.Err? {
          return Err(repo.untracked.error);
        }
        var paths := Paths(repo.untracked.value);
        var files := AppendFiles(f, repo, text, First(paths, COMMIT_CONTEXT_FILES));
        if files.Err? {
          return Err(files.error);
        }
        text := files.value.text;
        truncated := files.value.truncated || |paths| > COMMIT_CONTEXT_FILES || |repo.untracked.value| > METADATA_BYTES;
      }
    }
    result := Ok(Bounded(text, truncated));
  }

  // ----- what the context is -----

  /** What an untracked path stands for: its size and the diff that says everything about it. */
  datatype Entry = Unreadable | Readable(size: nat, diff: seq<byte>)

  function EntryOf(f: Format, repo: Repository, path: seq<byte>): Entry {
    match repo.contents(path)
    case Err(_) => Unreadable
    case Ok(file) => Readable(|file|, FileDiff(f, repo.escaped(path), file))
  }

  function Entries(f: Format, repo: Repository, paths: seq<seq<byte>>): seq<Entry> {
    if paths == [] then [] else [EntryOf(f, repo, paths[0])] + Entries(f, repo, paths[1..])
  }

  function WholeFiles(entries: seq<Entry>): seq<byte> {
    if entries == [] then []
    else (match entries[0] case Unreadable => [] case Readable(_, diff) => diff) + WholeFiles(entries[1..])
  }

  function Listed(f: Format, repo: Repository, listing: seq<byte>): seq<Entry> {
    Entries(f, repo, Paths(listing))
  }

  /** The whole context: both diffs and the diff of every untracked file, nothing left out. */
  function WholeMore(f: Format, repo: Repository): seq<byte>
    requires repo.unstaged.Ok? && repo.untracked.Ok?
  {
    repo.lossy(repo.unstaged.value) + WholeFiles(Listed(f, repo, repo.untracked.value))
  }

  function WholeContext(f: Format, repo: Repository, includeUnstaged: bool): seq<byte>
    requires repo.staged.Ok? && (includeUnstaged ==> repo.unstaged.Ok? && repo.untracked.Ok?)
  {
    repo.lossy(repo.staged.value) + if includeUnstaged then WholeMore(f, repo) else []
  }

  /** Printed text that fits into what `used` bytes leave, before and after its conversion. */
  predicate SectionFits(repo: Repository, used: nat, printed: seq<byte>) {
    used + |printed| <= COMMIT_CONTEXT_BYTES && used + |repo.lossy(printed)| <= COMMIT_CONTEXT_BYTES
  }

  /** Each file can be read, finds room left, and fits into it, itself and its diff. */
  predicate FilesFit(used: nat, entries: seq<Entry>)
    decreases |entries|
  {
    entries == [] ||
    (match entries[0]
     case Unreadable => false
     case Readable(size, diff) =>
       && used < COMMIT_CONTEXT_BYTES
       && used + size <= COMMIT_CONTEXT_BYTES
       && used + |diff| <= COMMIT_CONTEXT_BYTES
       && FilesFit(used + |diff|, entries[1..]))
  }

  predicate ListedFilesFit(f: Format, repo: Repository, used: nat, listing: seq<byte>) {
    && |listing| <= METADATA_BYTES
    && |Paths(listing)| <= COMMIT_CONTEXT_FILES
    && FilesFit(used, Listed(f, repo, listing))
  }

  predicate MoreFits(f: Format, repo: Repository, used: nat) {
    && repo.unstaged.Ok? && repo.untracked.Ok?
    && SectionFits(repo, used, repo.unstaged.value)
    && ListedFilesFit(f, repo, used + |repo.lossy(repo.unstaged.value)|, repo.untracked.value)
  }

  predicate ContextFits(f: Format, repo: Repository, includeUnstaged: bool) {
    && repo.staged.Ok? && SectionFits(repo, 0, repo.staged.value)
    && (includeUnstaged ==> MoreFits(f, repo, |repo.lossy(repo.staged.value)|))
  }

  /** The text so far: within the limit, and characters only. */
  predicate Bounds(context: Bounded) { |context.text| <= COMMIT_CONTEXT_BYTES && IsUtf8(context.text) }

  lemma PushBounds(context: Bounded, value: seq<byte>)
    requires Bounds(context) && IsUtf8(value)
    ensures var next := Push(context, value, COMMIT_CONTEXT_BYTES);
            && Bounds(next)
            && (!next.truncated <==> !context.truncated && |context.text| + |value| <= COMMIT_CONTEXT_BYTES)
            && (!next.truncated ==> next.text == context.text + value)
  {
    var whole := context.text;
    if !context.truncated {
      ConcatIsUtf8(whole, value);
      PushCuts(whole, value, COMMIT_CONTEXT_BYTES);
      CutIsLongestFittingText(whole + value, COMMIT_CONTEXT_BYTES, 0);
    }
  }

  lemma SectionIsExact(repo: Repository, context: Bounded, printed: seq<byte>)
    requires ConvertsToText(repo) && Bounds(context) && !context.truncated
    ensures var next := AddSection(repo, context, printed);
            && Bounds(next)
            && (!next.truncated <==> SectionFits(repo, |context.text|, printed))
            && (!next.truncated ==> next.text == context.text + repo.lossy(printed))
  {
    PushBounds(context, repo.lossy(First(printed, Room(context.text))));
  }

  lemma FileIsExact(f: Format, repo: Repository, context: Bounded, path: seq<byte>)
    requires Sound(f) && ConvertsToText(repo) && Bounds(context) && !context.truncated && repo.contents(path).Ok?
    ensures var next := AddFile(f, repo, context, path, repo.contents(path).value);
            var entry := EntryOf(f, repo, path);
            && Bounds(next) && entry.Readable?
            && (!next.truncated <==>
                |context.text| + entry.size <= COMMIT_CONTEXT_BYTES
                  && |context.text| + |entry.diff| <= COMMIT_CONTEXT_BYTES)
            && (!next.truncated ==> next.text == context.text + entry.diff)
  {
    var file := repo.contents(path).value;
    UnflaggedDiffIsComplete(f, repo.escaped(path), file, Room(context.text));
    PushBounds(context, DiffWithin(f, repo.escaped(path), file, Room(context.text)).text);
  }

  lemma WholeStep(text: seq<byte>, next: seq<byte>, entry: Entry, entries: seq<Entry>)
    requires entry.Readable? && next == text + entry.diff
    ensures text + WholeFiles([entry] + entries) == next + WholeFiles(entries)
  {
    assert ([entry] + entries)[1..] == entries;
    Regroup(text, entry.diff, WholeFiles(entries));
  }

  lemma FitStep(used: nat, entry: Entry, entries: seq<Entry>)
    ensures FilesFit(used, [entry] + entries) <==>
            && entry.Readable? && used < COMMIT_CONTEXT_BYTES && used + entry.size <= COMMIT_CONTEXT_BYTES
            && used + |entry.diff| <= COMMIT_CONTEXT_BYTES && FilesFit(used + |entry.diff|, entries)
  {
    assert ([entry] + entries)[1..] == entries;
  }

  /** `added` is the context with the files of `entries` added: whole and unflagged, if they fit. */
  predicate AddsExactly(context: Bounded, entries: seq<Entry>, added: Result<Bounded, GitError>) {
    && (added.Ok? ==> Bounds(added.value))
    && (added.Ok? && !added.value.truncated <==> FilesFit(|context.text|, entries))
    && (added.Ok? && !added.value.truncated ==> added.value.text == context.text + WholeFiles(entries))
  }

  lemma NothingAdded(context: Bounded)
    requires Bounds(context) && !context.truncated
    ensures AddsExactly(context, [], Ok(context))
  {
    assert context.text + [] == context.text;
  }

  // A file that fits is followed by the rest; one that does not ends the context.
  lemma OneMore(context: Bounded, next: Bounded, entry: Entry, entries: seq<Entry>, added: Result<Bounded, GitError>)
    requires entry.Readable? && Room(context.text) > 0 && Bounds(next)
    requires !next.truncated <==>
             |context.text| + entry.size <= COMMIT_CONTEXT_BYTES
               && |context.text| + |entry.diff| <= COMMIT_CONTEXT_BYTES
    requires !next.truncated ==> next.text == context.text + entry.diff
    requires if next.truncated then added == Ok(next) else AddsExactly(next, entries, added)
    ensures AddsExactly(context, [entry] + entries, added)
  {
    FitStep(|context.text|, entry, entries);
    if !next.truncated {
      WholeStep(context.text, next.text, entry, entries);
    }
  }

  lemma {:induction false} FilesAreExact(f: Format, repo: Repository, context: Bounded, paths: seq<seq<byte>>)
    requires Sound(f) && ConvertsToText(repo) && Bounds(context) && !context.truncated
    ensures AddsExactly(context, Entries(f, repo, paths), AddFiles(f, repo, context, paths))
    decreases |paths|
  {
    if paths == [] {
      NothingAdded(context);
    } else {
      var entry, entries := EntryOf(f, repo, paths[0]), Entries(f, repo, paths[1..]);
      FitStep(|context.text|, entry, entries);
      if Room(context.text) > 0 && repo.contents(paths[0]).Ok? {
        FileIsExact(f, repo, context, paths[0]);
        var next := AddFile(f, repo, context, paths[0], repo.contents(paths[0]).value);
        if !next.truncated {
          FilesAreExact(f, repo, next, paths[1..]);
        }
        OneMore(context, next, entry, entries, AddFiles(f, repo, next, paths[1..]));
      }
    }
  }

  lemma LastSectionIsExact(f: Format, repo: Repository, context: Bounded)
    requires Sound(f) && ConvertsToText(repo) && Bounds(context) && !context.truncated
    ensures var last := LastSection(f, repo, context);
            && (last.Ok? ==> Bounds(last.value))
            && (last.Ok? && !last.value.truncated <==>
               repo.untracked.Ok? && ListedFilesFit(f, repo, |context.text|, repo.untracked.value))
            && (last.Ok? && !last.value.truncated ==>
                last.value.text == context.text + WholeFiles(Listed(f, repo, repo.untracked.value)))
  {
    if repo.untracked.Ok? {
      FilesAreExact(f, repo, context, First(Paths(repo.untracked.value), COMMIT_CONTEXT_FILES));
    }
  }

  lemma MoreText(f: Format, repo: Repository, before: seq<byte>, after: seq<byte>)
    requires repo.unstaged.Ok? && repo.untracked.Ok? && after == before + repo.lossy(repo.unstaged.value)
    ensures after + WholeFiles(Listed(f, repo, repo.untracked.value)) == before + WholeMore(f, repo)
  {
    Regroup(before, repo.lossy(repo.unstaged.value), WholeFiles(Listed(f, repo, repo.untracked.value)));
  }

  lemma MoreAfterSection(f: Format, repo: Repository, used: nat, text: seq<byte>, next: Bounded)
    requires Sound(f) && ConvertsToText(repo) && Bounds(next) && !next.truncated && used == |text|
    requires repo.unstaged.Ok? && SectionFits(repo, used, repo.unstaged.value)
    requires next.text == text + repo.lossy(repo.unstaged.value)
    ensures var last := LastSection(f, repo, next);
            && (last.Ok? ==> Bounds(last.value))
            && (last.Ok? && !last.value.truncated <==> MoreFits(f, repo, used))
            && (MoreFits(f, repo, used) ==> last.value.text == text + WholeMore(f, repo))
  {
    LastSectionIsExact(f, repo, next);
    if repo.untracked.Ok? {
      MoreText(f, repo, text, next.text);
    }
  }

  lemma MoreIsExact(f: Format, repo: Repository, context: Bounded)
    requires Sound(f) && ConvertsToText(repo) && Bounds(context) && !context.truncated
    ensures var more := UnstagedSections(f, repo, context);
            && (more.Ok? ==> Bounds(more.value))
            && (more.Ok? && !more.value.truncated <==> MoreFits(f, repo, |context.text|))
            && (MoreFits(f, repo, |context.text|) ==> more.value.text == context.text + WholeMore(f, repo))
  {
    if repo.unstaged.Ok? {
      SectionIsExact(repo, context, repo.unstaged.value);
      var next := AddSection(repo, context, repo.unstaged.value);
      if !next.truncated {
        MoreAfterSection(f, repo, |context.text|, context.text, next);
      }
    }
  }

  /** The context never exceeds its limit and is always a text. It is unflagged exactly when
      everything could be read and fits, and then it is everything: no unflagged context lacks a
      byte of the diffs or of a file. */
  lemma CommitContextIsExact(f: Format, repo: Repository, includeUnstaged: bool)
    requires Sound(f) && ConvertsToText(repo)
    ensures var context := CommitContext(f, repo, includeUnstaged);
            && (context.Ok? ==> |context.value.text| <= COMMIT_CONTEXT_BYTES && IsUtf8(context.value.text))
            && (context.Ok? && !context.value.truncated <==> ContextFits(f, repo, includeUnstaged))
            && (ContextFits(f, repo, includeUnstaged) ==> context.value.text == WholeContext(f, repo, includeUnstaged))
  {
    if repo.staged.Ok? {
      var none := Bounded([], false);
      var first := AddSection(repo, none, repo.staged.value);
      SectionIsExact(repo, none, repo.staged.value);
      assert [] + repo.lossy(repo.staged.value) == repo.lossy(repo.staged.value);
      if includeUnstaged && !first.truncated {
        MoreIsExact(f, repo, first);
      } else {
        assert first.text + [] == first.text;
      }
    }
  }

  // ----- every listed file is in it -----

  predicate AllReadable(entries: seq<Entry>) {
    forall i :: 0 <= i < |entries| ==> entries[i].Readable?
  }

  predicate ArePaths(paths: seq<seq<byte>>) {
    forall i :: 0 <= i < |paths| ==> paths[i] != [] && NUL !in paths[i]
  }

  lemma {:induction false} NonEmptyKeeps(paths: seq<seq<byte>>)
    requires ArePaths(paths)
    ensures NonEmpty(paths + [[]]) == paths
  {
    if paths == [] {
      var last: seq<seq<byte>> := [[]];
      assert [] + last == last && last[1..] == [];
    } else {
      assert (paths + [[]])[1..] == paths[1..] + [[]];
      NonEmptyKeeps(paths[1..]);
    }
  }

  /** A listing, each path ended by a NUL, is read as the paths it lists: all of them, in order. */
  lemma ListingIsRead(paths: seq<seq<byte>>)
    requires ArePaths(paths) && |Ended(paths)| <= METADATA_BYTES
    ensures Paths(Ended(paths)) == paths
  {
    SplitEnded(paths);
    NonEmptyKeeps(paths);
  }

  /** The diffs of the files at the given paths, one after the other. */
  function DiffsOf(f: Format, repo: Repository, paths: seq<seq<byte>>): seq<byte>
    requires forall i :: 0 <= i < |paths| ==> repo.contents(paths[i]).Ok?
  {
    if paths == [] then []
    else FileDiff(f, repo.escaped(paths[0]), repo.contents(paths[0]).value) + DiffsOf(f, repo, paths[1..])
  }

  lemma {:induction false} WholeFilesAreDiffs(f: Format, repo: Repository, paths: seq<seq<byte>>)
    requires forall i :: 0 <= i < |paths| ==> repo.contents(paths[i]).Ok?
    ensures WholeFiles(Entries(f, repo, paths)) == DiffsOf(f, repo, paths)
  {
    if paths != [] {
      var entries := Entries(f, repo, paths);
      assert entries[1..] == Entries(f, repo, paths[1..]);
      WholeFilesAreDiffs(f, repo, paths[1..]);
    }
  }

  lemma {:induction false} FitsOnlyReadable(used: nat, entries: seq<Entry>)
    requires FilesFit(used, entries)
    ensures AllReadable(entries)
    decreases |entries|
  {
    if entries != [] {
      FitsOnlyReadable(used + |entries[0].diff|, entries[1..]);
      forall i | 0 <= i < |entries| ensures entries[i].Readable? {
        assert i > 0 ==> entries[i] == entries[1..][i - 1];
      }
    }
  }

  lemma ReadableContents(f: Format, repo: Repository, paths: seq<seq<byte>>)
    requires AllReadable(Entries(f, repo, paths))
    ensures forall i :: 0 <= i < |paths| ==> repo.contents(paths[i]).Ok?
  {
    EntriesPrefix(f, repo, paths);
    forall i | 0 <= i < |paths| ensures repo.contents(paths[i]).Ok? {
      assert Entries(f, repo, paths)[i].Readable?;
    }
  }

  // When the listed files fit, they are those listed, and their diffs are all of them.
  lemma FittingListing(f: Format, repo: Repository, used: nat, paths: seq<seq<byte>>)
    requires ArePaths(paths) && ListedFilesFit(f, repo, used, Ended(paths))
    ensures |paths| <= COMMIT_CONTEXT_FILES
    ensures forall i :: 0 <= i < |paths| ==> repo.contents(paths[i]).Ok?
    ensures WholeFiles(Listed(f, repo, Ended(paths))) == DiffsOf(f, repo, paths)
  {
    ListingIsRead(paths);
    FitsOnlyReadable(used, Entries(f, repo, paths));
    ReadableContents(f, repo, paths);
    WholeFilesAreDiffs(f, repo, paths);
  }

  lemma FittingMore(f: Format, repo: Repository, used: nat, paths: seq<seq<byte>>)
    requires MoreFits(f, repo, used) && ArePaths(paths) && repo.untracked == Ok(Ended(paths))
    ensures |paths| <= 128
    ensures forall i :: 0 <= i < |paths| ==> repo.contents(paths[i]).Ok?
    ensures WholeMore(f, repo) == repo.lossy(repo.unstaged.value) + DiffsOf(f, repo, paths)
  {
    FittingListing(f, repo, used + |repo.lossy(repo.unstaged.value)|, paths);
  }

  lemma UnflaggedFits(f: Format, repo: Repository)
    requires Sound(f) && ConvertsToText(repo)
    requires CommitContext(f, repo, true).Ok? && !CommitContext(f, repo, true).value.truncated
    ensures repo.staged.Ok? && MoreFits(f, repo, |repo.lossy(repo.staged.value)|)
    ensures CommitContext(f, repo, true).value.text == repo.lossy(repo.staged.value) + WholeMore(f, repo)
    ensures |CommitContext(f, repo, true).value.text| <= COMMIT_CONTEXT_BYTES
  {
    CommitContextIsExact(f, repo, true);
  }

  /** For any listed untracked files an unflagged context is both sections followed by the diffs of
      all the files, in the order of the listing; none of them could not be read. */
  lemma UnflaggedContextHasEveryFile(f: Format, repo: Repository, paths: seq<seq<byte>>)
    requires Sound(f) && ConvertsToText(repo) && repo.untracked == Ok(Ended(paths)) && ArePaths(paths)
    requires CommitContext(f, repo, true).Ok? && !CommitContext(f, repo, true).value.truncated
    ensures |paths| <= 128 && repo.staged.Ok? && repo.unstaged.Ok?
    ensures forall i :: 0 <= i < |paths| ==> repo.contents(paths[i]).Ok?
    ensures CommitContext(f, repo, true).value.text ==
            repo.lossy(repo.staged.value) + (repo.lossy(repo.unstaged.value) + DiffsOf(f, repo, paths))
    ensures |CommitContext(f, repo, true).value.text| <= 20480
  {
    UnflaggedFits(f, repo);
    FittingMore(f, repo, |repo.lossy(repo.staged.value)|, paths);
  }

  // ----- when a context is flagged although everything would fit -----

  /** The conversion to text replaces bytes that are none by characters at least as long. */
  ghost predicate NeverShortens(repo: Repository) {
    forall s: seq<byte> :: |s| <= |repo.lossy(s)|
  }

  /** Everything can be read and fits into the limit together. */
  predicate WholeFits(f: Format, repo: Repository, includeUnstaged: bool) {
    && repo.staged.Ok?
    && (includeUnstaged ==>
          repo.unstaged.Ok? && repo.untracked.Ok? && AllReadable(Listed(f, repo, repo.untracked.value)))
    && |WholeContext(f, repo, includeUnstaged)| <= COMMIT_CONTEXT_BYTES
  }

  /** A file comes up when the context is exactly full, or one that is no text, and so adds
      nothing, is larger than the room left. */
  predicate Crowded(used: nat, entries: seq<Entry>)
    decreases |entries|
  {
    entries != [] && entries[0].Readable? &&
    (|| used >= COMMIT_CONTEXT_BYTES
     || (entries[0].diff == [] && used + entries[0].size > COMMIT_CONTEXT_BYTES)
     || Crowded(used + |entries[0].diff|, entries[1..]))
  }

  /** Of the listing more was dropped than the context would have, or a file is crowded out. */
  predicate IsCrowded(f: Format, repo: Repository)
    requires repo.staged.Ok? && repo.unstaged.Ok? && repo.untracked.Ok?
  {
    || |repo.untracked.value| > METADATA_BYTES
    || |Paths(repo.untracked.value)| > COMMIT_CONTEXT_FILES
    || Crowded(|repo.lossy(repo.staged.value)| + |repo.lossy(repo.unstaged.value)|,
       Listed(f, repo, repo.untracked.value))
  }

  /** The diff of a text is no shorter than the text. */
  predicate DiffsAreLonger(entries: seq<Entry>) {
    forall i :: 0 <= i < |entries| ==> entries[i].Readable? ==>
      entries[i].diff == [] || entries[i].size <= |entries[i].diff|
  }

  lemma {:induction false} EntriesDiffs(f: Format, repo: Repository, paths: seq<seq<byte>>)
    ensures DiffsAreLonger(Entries(f, repo, paths))
  {
    if paths != [] {
      EntriesDiffs(f, repo, paths[1..]);
      var contents := repo.contents(paths[0]);
      if contents.Ok? && IsUtf8(contents.value) {
        DiffIsLonger(f, repo.escaped(paths[0]), contents.value);
      }
    }
  }

  lemma {:induction false} FitsUnlessCrowded(used: nat, entries: seq<Entry>)
    requires AllReadable(entries) && DiffsAreLonger(entries)
    requires used + |WholeFiles(entries)| <= COMMIT_CONTEXT_BYTES
    ensures FilesFit(used, entries) <==> !Crowded(used, entries)
    decreases |entries|
  {
    if entries != [] {
      assert |WholeFiles(entries)| == |entries[0].diff| + |WholeFiles(entries[1..])|;
      FitsUnlessCrowded(used + |entries[0].diff|, entries[1..]);
    }
  }

  lemma {:induction false} EntriesPrefix(f: Format, repo: Repository, paths: seq<seq<byte>>)
    ensures |Entries(f, repo, paths)| == |paths|
    ensures forall i :: 0 <= i < |paths| ==> Entries(f, repo, paths)[i] == EntryOf(f, repo, paths[i])
  {
    if paths != [] {
      EntriesPrefix(f, repo, paths[1..]);
    }
  }

  // With every file readable nothing fails.
  lemma {:induction false} ReadableFilesAreAdded(f: Format, repo: Repository, context: Bounded, paths: seq<seq<byte>>)
    requires forall i :: 0 <= i < |paths| ==> repo.contents(paths[i]).Ok?
    ensures AddFiles(f, repo, context, paths).Ok?
    decreases |paths|
  {
    if paths != [] && repo.contents(paths[0]).Ok? {
      ReadableFilesAreAdded(f, repo, AddFile(f, repo, context, paths[0], repo.contents(paths[0]).value), paths[1..]);
    }
  }

  lemma ReadableContextIsOk(f: Format, repo: Repository, includeUnstaged: bool)
    requires WholeFits(f, repo, includeUnstaged)
    ensures CommitContext(f, repo, includeUnstaged).Ok?
  {
    var first := AddSection(repo, Bounded([], false), repo.staged.value);
    if includeUnstaged && !first.truncated {
      var second := AddSection(repo, first, repo.unstaged.value);
      var paths := Paths(repo.untracked.value);
      EntriesPrefix(f, repo, paths);
      forall i | 0 <= i < |paths| ensures repo.contents(paths[i]).Ok? {
        assert Entries(f, repo, paths)[i].Readable?;
      }
      ReadableFilesAreAdded(f, repo, second, First(paths, COMMIT_CONTEXT_FILES));
    }
  }

  lemma SectionsFit(f: Format, repo: Repository, includeUnstaged: bool)
    requires NeverShortens(repo) && WholeFits(f, repo, includeUnstaged)
    ensures SectionFits(repo, 0, repo.staged.value)
    ensures includeUnstaged ==>
              var used := |repo.lossy(repo.staged.value)|;
              && SectionFits(repo, used, repo.unstaged.value)
              && used + |repo.lossy(repo.unstaged.value)| + |WholeFiles(Listed(f, repo, repo.untracked.value))| <=
                 COMMIT_CONTEXT_BYTES
  {
    assert |repo.staged.value| <= |repo.lossy(repo.staged.value)|;
    if includeUnstaged {
      assert |repo.unstaged.value| <= |repo.lossy(repo.unstaged.value)|;
    }
  }

  lemma ListedFitUnlessCrowded(f: Format, repo: Repository, used: nat, listing: seq<byte>)
    requires AllReadable(Listed(f, repo, listing))
             && used + |WholeFiles(Listed(f, repo, listing))| <= COMMIT_CONTEXT_BYTES
    ensures FilesFit(used, Listed(f, repo, listing)) <==> !Crowded(used, Listed(f, repo, listing))
  {
    EntriesDiffs(f, repo, Paths(listing));
    FitsUnlessCrowded(used, Listed(f, repo, listing));
  }

  lemma MoreFitsUnlessCrowded(f: Format, repo: Repository, used: nat, entries: seq<Entry>)
    requires repo.staged.Ok? && repo.unstaged.Ok? && repo.untracked.Ok? && used == |repo.lossy(repo.staged.value)|
    requires SectionFits(repo, used, repo.unstaged.value) && entries == Listed(f, repo, repo.untracked.value)
    requires var more := used + |repo.lossy(repo.unstaged.value)|;
             FilesFit(more, entries) <==> !Crowded(more, entries)
    ensures MoreFits(f, repo, used) <==> !IsCrowded(f, repo)
  {
  }

  lemma MoreFitsIffNotCrowded(f: Format, repo: Repository, used: nat, entries: seq<Entry>)
    requires repo.staged.Ok? && repo.unstaged.Ok? && repo.untracked.Ok? && used == |repo.lossy(repo.staged.value)|
    requires SectionFits(repo, used, repo.unstaged.value) && entries == Listed(f, repo, repo.untracked.value)
    requires AllReadable(entries)
    requires used + |repo.lossy(repo.unstaged.value)| + |WholeFiles(entries)| <= COMMIT_CONTEXT_BYTES
    ensures MoreFits(f, repo, used) <==> !IsCrowded(f, repo)
  {
    ListedFitUnlessCrowded(f, repo, used + |repo.lossy(repo.unstaged.value)|, repo.untracked.value);
    MoreFitsUnlessCrowded(f, repo, used, entries);
  }

  lemma FitsIffNotCrowded(f: Format, repo: Repository, includeUnstaged: bool)
    requires NeverShortens(repo) && WholeFits(f, repo, includeUnstaged)
    ensures ContextFits(f, repo, includeUnstaged) <==> !(includeUnstaged && IsCrowded(f, repo))
  {
    SectionsFit(f, repo, includeUnstaged);
    if includeUnstaged {
      var entries := Listed(f, repo, repo.untracked.value);
      MoreFitsIffNotCrowded(f, repo, |repo.lossy(repo.staged.value)|, entries);
    }
  }

  /** A context that would fit as a whole is flagged all the same exactly when untracked files are
      included and one is crowded out, or there are too many of them. */
  lemma FlaggedAlthoughItFits(f: Format, repo: Repository, includeUnstaged: bool)
    requires Sound(f) && ConvertsToText(repo) && NeverShortens(repo) && WholeFits(f, repo, includeUnstaged)
    ensures var context := CommitContext(f, repo, includeUnstaged);
            context.Ok? && (context.value.truncated <==> includeUnstaged && IsCrowded(f, repo))
  {
    ReadableContextIsOk(f, repo, includeUnstaged);
    CommitContextIsExact(f, repo, includeUnstaged);
    FitsIffNotCrowded(f, repo, includeUnstaged);
  }

  /** The conversion of a repository whose names and diffs are texts already. */
  function Same(s: seq<byte>): (text: seq<byte>)
    ensures |s| <= |text| && IsUtf8(text)
    ensures IsUtf8(s) ==> text == s
  {
    if IsUtf8(s) then s
    else
      var marks: seq<byte> := seq(|s|, i => 63);
      AsciiIsUtf8(marks);
      marks
  }

  /** A staged diff of 20 KiB, nothing unstaged, and one untracked file, whose one byte is no text. */
  function FullRepository(): Repository {
    Repository(Ok(seq(COMMIT_CONTEXT_BYTES, i => SPACE)), Ok([]), Ok([1, NUL]), path => Ok([0xFF]), Same, Same)
  }

  lemma OnePath()
    ensures Paths([1, NUL]) == [[1]]
  {
    var listing: seq<byte> := [1, NUL];
    SplitAtSeparator([1], [], NUL);
    assert listing == [1] + [NUL] + [];
    assert Split(listing, NUL) == [[1], []];
    var pieces: seq<seq<byte>> := [[1], []];
    assert pieces[1..][1..] == [];
  }

  /** The context of that repository is the whole of it, and flagged. */
  lemma FlaggedAlthoughWhole(f: Format)
    requires Sound(f)
    ensures var repo := FullRepository();
            && ConvertsToText(repo) && NeverShortens(repo) && WholeFits(f, repo, true)
            && CommitContext(f, repo, true) == Ok(Bounded(WholeContext(f, repo, true), true))
  {
    var repo := FullRepository();
    var spaces := repo.staged.value;
    AsciiIsUtf8(spaces);
    assert repo.lossy(spaces) == spaces && repo.lossy([]) == [];
    OnePath();
    assert !IsUtf8([0xFF]);
    var entries := Entries(f, repo, [[1]]);
    assert entries == [Readable(1, [])] + Entries(f, repo, [[1]][1..]);
    assert WholeFiles(entries) == [];
    assert WholeContext(f, repo, true) == spaces;
    var first := AddSection(repo, Bounded([], false), spaces);
    assert first == Bounded(spaces, false);
    var second := AddSection(repo, first, []);
    assert second == Bounded(spaces, false);
  }
}
