/** The parser of `git status --porcelain=v2 -z --branch`
    (crates/codex-platform/src/git.rs, `parse_status`, `status_file`).

    Paths and names are kept as bytes. The format is the one of git-status documentation,
    section "Porcelain Format Version 2" with `-z`. */
module GitStatus {

  import opened Bytes
  import opened ByteText
  import opened Wrappers

  const U32_MAX: nat := 0xFFFF_FFFF

  const DOT: byte := '.' as byte
  const PLUS: byte := '+' as byte
  const MINUS: byte := '-' as byte
  const HASH: byte := '#' as byte
  const BANG: byte := '!' as byte
  const QUERY: byte := '?' as byte
  const ONE: byte := '1' as byte
  const TWO: byte := '2' as byte
  const LOWER_U: byte := 'u' as byte

  // "# branch.", the start of the three headers that are read
  const BRANCH: seq<byte> := [35, 32, 98, 114, 97, 110, 99, 104, 46]
  // "head ", "ab ", "upstream ", "(detached)"
  const HEAD: seq<byte> := [104, 101, 97, 100, 32]
  const AB: seq<byte> := [97, 98, 32]
  const UPSTREAM: seq<byte> := [117, 112, 115, 116, 114, 101, 97, 109, 32]
  const DETACHED: seq<byte> := [40, 100, 101, 116, 97, 99, 104, 101, 100, 41]

  datatype Kind = Added | Deleted | Renamed | Copied | TypeChanged | Conflicted | Modified | Untracked

  datatype File = File(path: seq<byte>, oldPath: Option<seq<byte>>, kind: Kind, staged: bool, unstaged: bool)

  datatype Status = Status(
    branch: Option<seq<byte>>, upstream: Option<seq<byte>>, ahead: nat, behind: nat, files: seq<File>)

  datatype StatusError = InvalidOutput

  function NoStatus(): Status { Status(None, None, 0, 0, []) }

  // ----- splitting -----

  /** At most `n` pieces: the last one keeps the separators that are left. */
  function SplitN(s: seq<byte>, n: nat, sep: byte): seq<seq<byte>>
    decreases n
  {
    if n == 0 then []
    else if n == 1 || sep !in s then [s]
    else
      var first := Split(s, sep)[0];
      [first] + SplitN(if |first| < |s| then s[|first| + 1..] else [], n - 1, sep)
  }

  // ----- decimal numbers -----

  /** An unsigned 32-bit number: digits, after at most one plus sign; None when malformed or out
      of range. */
  function ParseU32(s: seq<byte>): Option<nat> {
    var d := if s != [] && s[0] == PLUS then s[1..] else s;
    if d == [] then None
    else match ValueOf(d)
      case None => None
      case Some(v) => if v > U32_MAX then None else Some(v)
  }

  function NumberOrZero(s: seq<byte>): nat {
    match ParseU32(s) case Some(v) => v case None => 0
  }

  lemma NumberRoundTrip(n: nat)
    ensures NumberOrZero(Digits(n)) == if n <= U32_MAX then n else 0
  {
    DigitsRoundTrip(n);
    assert Digits(n)[0] in Digits(n);
  }

  /** One plus sign may come before the digits; nothing else may, nor may they be missing. */
  lemma SignedNumbers(d: seq<byte>, sign: byte)
    requires d != [] && d[0] != PLUS && !IsDecimal(sign)
    ensures ParseU32([sign] + d) == if sign == PLUS then ParseU32(d) else None
    ensures ParseU32([sign, PLUS] + d) == None
    ensures ParseU32([]) == None && ParseU32([sign]) == None
  {
    var one, two := [sign] + d, [sign, PLUS] + d;
    assert one[0] == sign && one[1..] == d;
    assert two[0] == sign && two[1] == PLUS && two[1..][0] == PLUS;
    assert [sign][0] == sign && [sign][1..] == [];
    OnlyDigitsAreNumbers(one);
    OnlyDigitsAreNumbers(two);
    OnlyDigitsAreNumbers(two[1..]);
    OnlyDigitsAreNumbers([sign]);
  }

  predicate IsWhitespace(b: byte) { b == SPACE || 9 <= b <= 13 }

  function Words(s: seq<byte>): seq<seq<byte>> {
    WordsAfter([], s)
  }

  function WordsAfter(word: seq<byte>, s: seq<byte>): seq<seq<byte>>
    decreases |s|
  {
    if s == [] then (if word == [] then [] else [word])
    else if IsWhitespace(s[0]) then (if word == [] then [] else [word]) + WordsAfter([], s[1..])
    else WordsAfter(word + [s[0]], s[1..])
  }

  function CountWords(status: Status, words: seq<seq<byte>>): Status
    decreases |words|
  {
    if words == [] then status
    else
      var word := words[0];
      var next :=
        if word != [] && word[0] == PLUS then status.(ahead := NumberOrZero(word[1..]))
        else if word != [] && word[0] == MINUS then status.(behind := NumberOrZero(word[1..]))
        else status;
      CountWords(next, words[1..])
  }

  // ----- records -----

  function KindOf(code: byte): Kind {
    if code == 'A' as byte then Added
    else if code == 'D' as byte then Deleted
    else if code == 'R' as byte then Renamed
    else if code == 'C' as byte then Copied
    else if code == 'T' as byte then TypeChanged
    else if code == 'U' as byte then Conflicted
    else Modified
  }

  function StatusFile(xy: seq<byte>, path: seq<byte>, oldPath: Option<seq<byte>>): File {
    var staged := if |xy| > 0 then xy[0] else DOT;
    var unstaged := if |xy| > 1 then xy[1] else DOT;
    File(path, oldPath, KindOf(if unstaged != DOT then unstaged else staged), staged != DOT, unstaged != DOT)
  }

  function WithFile(status: Status, file: File): Status {
    status.(files := status.files + [file])
  }

  function ReadHeader(status: Status, header: seq<byte>): Status {
    if HEAD <= header then
      var name := header[|HEAD|..];
      if name == DETACHED then status else status.(branch := Some(name))
    else if AB <= header then
      CountWords(status, Words(header[|AB|..]))
    else if UPSTREAM <= header then
      var name := header[|UPSTREAM|..];
      if name == [] then status else status.(upstream := Some(name))
    else status
  }

  /** Of the branch headers three are read. */
  predicate IsRead(header: seq<byte>) { HEAD <= header || AB <= header || UPSTREAM <= header }

  /** What one record adds to the status. A rename also consumes the record after it, its source;
      `next` is that record, if there is one. */
  function ReadRecord(status: Status, record: seq<byte>, next: Option<seq<byte>>): Result<Status, StatusError> {
    if record == [] then Ok(status)
    else if BRANCH <= record && IsRead(record[|BRANCH|..])
    then Ok(ReadHeader(status, record[|BRANCH|..]))
    else if record[0] == ONE then
      var fields := SplitN(record, 9, SPACE);
      if |fields| != 9 then Err(InvalidOutput) else Ok(WithFile(status, StatusFile(fields[1], fields[8], None)))
    else if record[0] == TWO then
      var fields := SplitN(record, 10, SPACE);
      if |fields| != 10 then Err(InvalidOutput)
      else
        var source := if next.Some? && next.value != [] then next else None;
        Ok(WithFile(status, StatusFile(fields[1], fields[9], source)))
    else if record[0] == LOWER_U then
      var fields := SplitN(record, 11, SPACE);
      if |fields| != 11 then Err(InvalidOutput)
      else Ok(WithFile(status, File(fields[10], None, Conflicted, true, true)))
    else if record[0] == QUERY then
      Ok(WithFile(status, File(if |record| >= 2 then record[2..] else [], None, Untracked, false, true)))
    else if record[0] == BANG || record[0] == HASH then Ok(status)
    else Err(InvalidOutput)
  }

  predicate IsRename(record: seq<byte>) { record != [] && record[0] == TWO }

  function ReadRecords(status: Status, records: seq<seq<byte>>): Result<Status, StatusError>
    decreases |records|
  {
    if records == [] then Ok(status)
    else
      match ReadRecord(status, records[0], if |records| > 1 then Some(records[1]) else None)
      case Err(e) => Err(e)
      case Ok(next) =>
        ReadRecords(next, if IsRename(records[0]) && |records| > 1 then records[2..] else records[1..])
  }

  method ParseStatus(bytes: seq<byte>) returns (result: Result<Status, StatusError>)
    ensures result == ReadRecords(NoStatus(), Split(bytes, NUL))
  {
    var records := Split(bytes, NUL);
    var status := NoStatus();
    var i := 0;
    while i < |records|
      invariant i <= |records|
      invariant ReadRecords(status, records[i..]) == ReadRecords(NoStatus(), records)
      decreases |records| - i
    {
      var record := records[i];
      assert records[i..][1..] == records[i + 1..];
      assert i + 1 < |records| ==> records[i..][2..] == records[i + 2..];
      var next := if i + 1 < |records| then Some(records[i + 1]) else None;
      var read := ReadRecord(status, record, next);
      if read.Err? {
        return read;
      }
      status := read.value;
      i := if IsRename(record) && i + 1 < |records| then i + 2 else i + 1;
    }
    result := Ok(status);
  }

  // ----- the printed form -----

  /** What git found of a path on one side, the index or the work tree. */
  datatype Change =
    | Unchanged
    | Adds | Deletes | Renames | Copies | ChangesType | Conflicts | Modifies
    | Unlisted(letter: byte) // any other letter

  function Letter(change: Change): byte {
    match change
    case Unchanged => '.' as byte
    case Adds => 'A' as byte
    case Deletes => 'D' as byte
    case Renames => 'R' as byte
    case Copies => 'C' as byte
    case ChangesType => 'T' as byte
    case Conflicts => 'U' as byte
    case Modifies => 'M' as byte
    case Unlisted(letter) => letter
  }

  predicate IsChange(change: Change) {
    change.Unlisted? ==>
      change.letter as char !in {'.', 'A', 'D', 'R', 'C', 'T', 'U', 'M'} && IsField([change.letter])
  }

  /** The lines of a status, as git prints them. `middle` holds the fields the parser skips. */
  datatype Item =
    | BranchHead(name: seq<byte>)
    | BranchUpstream(name: seq<byte>)
    | BranchAb(ahead: nat, behind: nat)
    | OtherHeader(text: seq<byte>)
    | Ordinary(index: Change, worktree: Change, middle: seq<seq<byte>>, path: seq<byte>)
    | Rename(index: Change, worktree: Change, middle: seq<seq<byte>>, path: seq<byte>, source: seq<byte>)
    | Unmerged(xy: seq<byte>, middle: seq<seq<byte>>, path: seq<byte>)
    | UntrackedItem(path: seq<byte>)
    | IgnoredItem(path: seq<byte>)

  predicate IsField(s: seq<byte>) { SPACE !in s && NUL !in s }

  /** `-z` ends paths with NUL and quotes nothing, so any other byte may occur in them. */
  predicate IsPath(s: seq<byte>) { s != [] && NUL !in s }

  predicate IsEntry(xy: seq<byte>, middle: seq<seq<byte>>, count: nat, path: seq<byte>) {
    |xy| == 2 && IsField(xy) && |middle| == count && (forall i :: 0 <= i < count ==> IsField(middle[i])) && IsPath(path)
  }

  function Letters(index: Change, worktree: Change): seq<byte> { [Letter(index), Letter(worktree)] }

  predicate WellFormed(item: Item) {
    match item
    case BranchHead(name) => NUL !in name
    case BranchUpstream(name) => NUL !in name
    case BranchAb(_, _) => true
    case OtherHeader(text) =>
      NUL !in text &&
      (BRANCH <= [HASH] + text ==>
         !IsRead(([HASH] + text)[|BRANCH|..]))
    case Ordinary(index, worktree, middle, path) =>
      IsChange(index) && IsChange(worktree) && IsEntry(Letters(index, worktree), middle, 6, path)
    case Rename(index, worktree, middle, path, source) =>
      IsChange(index) && IsChange(worktree) && IsEntry(Letters(index, worktree), middle, 7, path) && IsPath(source)
    case Unmerged(xy, middle, path) => IsEntry(xy, middle, 8, path)
    case UntrackedItem(path) => IsPath(path)
    case IgnoredItem(path) => NUL !in path
  }

  function JoinFields(fields: seq<seq<byte>>, last: seq<byte>): seq<byte> {
    if fields == [] then last else fields[0] + [SPACE] + JoinFields(fields[1..], last)
  }

  function EntryRecord(tag: byte, xy: seq<byte>, middle: seq<seq<byte>>, path: seq<byte>): seq<byte> {
    JoinFields([[tag], xy] + middle, path)
  }

  function Records(item: Item): seq<seq<byte>> {
    match item
    case BranchHead(name) => [BRANCH + (HEAD + name)]
    case BranchUpstream(name) => [BRANCH + (UPSTREAM + name)]
    case BranchAb(ahead, behind) => [BRANCH + (AB + (([PLUS] + Digits(ahead)) + [SPACE] + ([MINUS] + Digits(behind))))]
    case OtherHeader(text) => [[HASH] + text]
    case Ordinary(index, worktree, middle, path) => [EntryRecord(ONE, Letters(index, worktree), middle, path)]
    case Rename(index, worktree, middle, path, source) =>
      [EntryRecord(TWO, Letters(index, worktree), middle, path), source]
    case Unmerged(xy, middle, path) => [EntryRecord(LOWER_U, xy, middle, path)]
    case UntrackedItem(path) => [[QUERY, SPACE] + path]
    case IgnoredItem(path) => [[BANG, SPACE] + path]
  }

  function RecordsOf(items: seq<Item>): seq<seq<byte>> {
    if items == [] then [] else Records(items[0]) + RecordsOf(items[1..])
  }

  function Output(items: seq<Item>): seq<byte> { Ended(RecordsOf(items)) }

  function KindIn(change: Change): Kind {
    match change
    case Adds => Added
    case Deletes => Deleted
    case Renames => Renamed
    case Copies => Copied
    case ChangesType => TypeChanged
    case Conflicts => Conflicted
    case _ => Modified
  }

  /** A file is of the kind its work tree shows, if that changed, and else its index. */
  function Changed(index: Change, worktree: Change, path: seq<byte>, source: Option<seq<byte>>): File {
    File(path, source, if worktree.Unchanged? then KindIn(index) else KindIn(worktree),
      !index.Unchanged?, !worktree.Unchanged?)
  }

  /** What an item means. */
  function Meaning(status: Status, item: Item): Status {
    match item
    case BranchHead(name) => if name == DETACHED then status else status.(branch := Some(name))
    case BranchUpstream(name) => if name == [] then status else status.(upstream := Some(name))
    case BranchAb(ahead, behind) =>
      status.(ahead := if ahead <= U32_MAX then ahead else 0, behind := if behind <= U32_MAX then behind else 0)
    case OtherHeader(_) => status
    case Ordinary(index, worktree, _, path) => WithFile(status, Changed(index, worktree, path, None))
    case Rename(index, worktree, _, path, source) => WithFile(status, Changed(index, worktree, path, Some(source)))
    case Unmerged(_, _, path) => WithFile(status, File(path, None, Conflicted, true, true))
    case UntrackedItem(path) => WithFile(status, File(path, None, Untracked, false, true))
    case IgnoredItem(_) => status
  }

  function MeaningOf(status: Status, items: seq<Item>): Status
    decreases |items|
  {
    if items == [] then status else MeaningOf(Meaning(status, items[0]), items[1..])
  }

  // ----- parsing undoes printing -----

  lemma SplitNStep(s: seq<byte>, first: seq<byte>, rest: seq<byte>, n: nat)
    requires n > 1 && SPACE !in first && s == first + [SPACE] + rest
    ensures SplitN(s, n, SPACE) == [first] + SplitN(rest, n - 1, SPACE)
  {
    SplitAtSeparator(first, rest, SPACE);
    assert s[|first|] == SPACE && SPACE in s;
    assert s[|first| + 1..] == rest;
  }

  lemma {:induction false} SplitNFields(fields: seq<seq<byte>>, last: seq<byte>)
    requires forall i :: 0 <= i < |fields| ==> SPACE !in fields[i]
    ensures SplitN(JoinFields(fields, last), |fields| + 1, SPACE) == fields + [last]
  {
    if fields != [] {
      var rest := JoinFields(fields[1..], last);
      var s := fields[0] + [SPACE] + rest;
      SplitNFields(fields[1..], last);
      SplitNStep(s, fields[0], rest, |fields| + 1);
      assert [fields[0]] + (fields[1..] + [last]) == fields + [last];
    }
  }

  predicate IsWord(s: seq<byte>) {
    forall i :: 0 <= i < |s| ==> !IsWhitespace(s[i])
  }

  lemma {:induction false} WordTaken(word: seq<byte>, s: seq<byte>, rest: seq<byte>)
    requires IsWord(s)
    ensures WordsAfter(word, s + rest) == WordsAfter(word + s, rest)
    decreases |s|
  {
    if s == [] {
      assert s + rest == rest && word + s == word;
    } else {
      assert (s + rest)[1..] == s[1..] + rest;
      WordTaken(word + [s[0]], s[1..], rest);
      assert word + [s[0]] + s[1..] == word + s;
    }
  }

  lemma TwoWords(first: seq<byte>, second: seq<byte>)
    requires first != [] && second != [] && IsWord(first) && IsWord(second)
    ensures Words(first + [SPACE] + second) == [first, second]
  {
    assert first + [SPACE] + second == first + ([SPACE] + second);
    WordTaken([], first, [SPACE] + second);
    assert [] + first == first;
    assert ([SPACE] + second)[1..] == second;
    assert second + [] == second && [] + second == second;
    WordTaken([], second, []);
  }

  // ASCII white space: the space, the tab, and the four line and page breaks.
  lemma WhitespaceIs(b: byte)
    ensures IsWhitespace(b) <==> b as char in {' ', '\t', '\n', '\U{0B}', '\U{0C}', '\r'}
  {
  }

  lemma {:induction false} WhitespaceSkipped(space: seq<byte>, rest: seq<byte>)
    requires forall i :: 0 <= i < |space| ==> IsWhitespace(space[i])
    ensures WordsAfter([], space + rest) == WordsAfter([], rest)
  {
    if space == [] {
      assert space + rest == rest;
    } else {
      assert (space + rest)[1..] == space[1..] + rest;
      WhitespaceSkipped(space[1..], rest);
    }
  }

  lemma SignedNumberIsOneWord(sign: byte, n: nat)
    requires sign == PLUS || sign == MINUS
    ensures IsWord([sign] + Digits(n))
  {
    DigitsRoundTrip(n);
    var word := [sign] + Digits(n);
    forall i | 0 <= i < |word| ensures !IsWhitespace(word[i]) {
      if i > 0 {
        assert word[i] == Digits(n)[i - 1] && Digits(n)[i - 1] in Digits(n);
      }
    }
  }

  lemma CountTwoWords(status: Status, ahead: seq<byte>, behind: seq<byte>)
    ensures CountWords(status, [[PLUS] + ahead, [MINUS] + behind])
            == status.(ahead := NumberOrZero(ahead), behind := NumberOrZero(behind))
  {
    var first, second := [PLUS] + ahead, [MINUS] + behind;
    assert first[1..] == ahead && second[1..] == behind;
    var counted := status.(ahead := NumberOrZero(ahead));
    assert CountWords(status, [first, second]) == CountWords(counted, [second]) by {
      assert [first, second][1..] == [second];
    }
    assert CountWords(counted, [second]) == CountWords(counted.(behind := NumberOrZero(behind)), [second][1..]);
    assert [second][1..] == [];
  }

  lemma AbMeans(status: Status, ahead: nat, behind: nat)
    ensures CountWords(status, Words(([PLUS] + Digits(ahead)) + [SPACE] + ([MINUS] + Digits(behind))))
            == Meaning(status, BranchAb(ahead, behind))
  {
    SignedNumberIsOneWord(PLUS, ahead);
    SignedNumberIsOneWord(MINUS, behind);
    TwoWords([PLUS] + Digits(ahead), [MINUS] + Digits(behind));
    CountTwoWords(status, Digits(ahead), Digits(behind));
    NumberRoundTrip(ahead);
    NumberRoundTrip(behind);
  }

  lemma HeaderMeans(status: Status, item: Item)
    requires item.BranchHead? || item.BranchUpstream? || item.BranchAb?
    ensures ReadRecord(status, Records(item)[0], None) == Ok(Meaning(status, item))
    ensures !IsRename(Records(item)[0])
  {
    var record := Records(item)[0];
    var header := record[|BRANCH|..];
    assert BRANCH <= record;
    match item {
      case BranchHead(name) =>
        assert header == HEAD + name;
        assert header[|HEAD|..] == name;
      case BranchUpstream(name) =>
        assert header == UPSTREAM + name && header[0] == LOWER_U;
        assert header[|UPSTREAM|..] == name;
      case BranchAb(ahead, behind) =>
        var text := ([PLUS] + Digits(ahead)) + [SPACE] + ([MINUS] + Digits(behind));
        assert header == AB + text && header[0] == 97;
        assert header[|AB|..] == text;
        AbMeans(status, ahead, behind);
    }
  }

  lemma EntryFields(tag: byte, xy: seq<byte>, middle: seq<seq<byte>>, path: seq<byte>)
    requires tag != SPACE && SPACE !in xy && forall i :: 0 <= i < |middle| ==> SPACE !in middle[i]
    ensures var record := EntryRecord(tag, xy, middle, path);
            var fields := SplitN(record, |middle| + 3, SPACE);
            && record != [] && record[0] == tag
            && |fields| == |middle| + 3 && fields[1] == xy && fields[|middle| + 2] == path
  {
    var fields := [[tag], xy] + middle;
    SplitNFields(fields, path);
  }

  lemma {:induction false} NulFreeFields(fields: seq<seq<byte>>, last: seq<byte>)
    requires (forall i :: 0 <= i < |fields| ==> NUL !in fields[i]) && NUL !in last
    ensures NUL !in JoinFields(fields, last)
  {
    if fields != [] {
      NulFreeFields(fields[1..], last);
    }
  }

  // No record of a file starts like a branch header.
  lemma NotAHeader(record: seq<byte>)
    requires record != [] && record[0] != HASH
    ensures !(BRANCH <= record)
  {
  }

  lemma LettersMean(index: Change, worktree: Change, path: seq<byte>, source: Option<seq<byte>>)
    requires IsChange(index) && IsChange(worktree)
    ensures StatusFile(Letters(index, worktree), path, source) == Changed(index, worktree, path, source)
  {
    LetterMeans(index);
    LetterMeans(worktree);
  }

  lemma LetterMeans(change: Change)
    requires IsChange(change)
    ensures KindOf(Letter(change)) == KindIn(change) && (Letter(change) == DOT <==> change.Unchanged?)
  {
    match change
    case Unlisted(letter) =>
      assert letter as char != '.' && letter as char != 'A' && letter as char != 'D' && letter as char != 'R';
      assert letter as char != 'C' && letter as char != 'T' && letter as char != 'U';
    case _ =>
  }

  lemma OrdinaryMeans(status: Status, xy: seq<byte>, middle: seq<seq<byte>>, path: seq<byte>, next: Option<seq<byte>>)
    requires IsEntry(xy, middle, 6, path)
    ensures var record := EntryRecord(ONE, xy, middle, path);
            !IsRename(record) && ReadRecord(status, record, next) == Ok(WithFile(status, StatusFile(xy, path, None)))
  {
    EntryFields(ONE, xy, middle, path);
    NotAHeader(EntryRecord(ONE, xy, middle, path));
  }

  lemma RenameMeans(status: Status, xy: seq<byte>, middle: seq<seq<byte>>, path: seq<byte>, source: seq<byte>)
    requires IsEntry(xy, middle, 7, path) && source != []
    ensures var record := EntryRecord(TWO, xy, middle, path);
            IsRename(record) && ReadRecord(status, record, Some(source)) ==
              Ok(WithFile(status, StatusFile(xy, path, Some(source))))
  {
    EntryFields(TWO, xy, middle, path);
    NotAHeader(EntryRecord(TWO, xy, middle, path));
  }

  lemma UnmergedMeans(status: Status, xy: seq<byte>, middle: seq<seq<byte>>, path: seq<byte>, next: Option<seq<byte>>)
    requires IsEntry(xy, middle, 8, path)
    ensures var record := EntryRecord(LOWER_U, xy, middle, path);
            !IsRename(record) && ReadRecord(status, record, next) ==
              Ok(WithFile(status, File(path, None, Conflicted, true, true)))
  {
    EntryFields(LOWER_U, xy, middle, path);
    NotAHeader(EntryRecord(LOWER_U, xy, middle, path));
  }

  lemma UntrackedMeans(status: Status, path: seq<byte>, next: Option<seq<byte>>)
    ensures var record := [QUERY, SPACE] + path;
            !IsRename(record) && ReadRecord(status, record, next) ==
              Ok(WithFile(status, File(path, None, Untracked, false, true)))
  {
    NotAHeader([QUERY, SPACE] + path);
    assert ([QUERY, SPACE] + path)[2..] == path;
  }

  lemma SkippedMeans(status: Status, record: seq<byte>, next: Option<seq<byte>>)
    requires record != [] && (record[0] == BANG || record[0] == HASH)
    requires BRANCH <= record ==> !IsRead(record[|BRANCH|..])
    ensures !IsRename(record) && ReadRecord(status, record, next) == Ok(status)
  {
  }

  /** One item is read as what it means, whatever record follows it; a rename takes its source
      along, so the source is never read as a record. */
  lemma ItemMeans(status: Status, item: Item, rest: seq<seq<byte>>)
    requires WellFormed(item)
    ensures ReadRecords(status, Records(item) + rest) == ReadRecords(Meaning(status, item), rest)
  {
    var records := Records(item) + rest;
    var next := if |records| > 1 then Some(records[1]) else None;
    match item {
      case BranchHead(_) => HeaderMeans(status, item);
      case BranchUpstream(_) => HeaderMeans(status, item);
      case BranchAb(_, _) => HeaderMeans(status, item);
      case OtherHeader(text) => SkippedMeans(status, [HASH] + text, next);
      case Ordinary(index, worktree, middle, path) =>
        OrdinaryMeans(status, Letters(index, worktree), middle, path, next);
        LettersMean(index, worktree, path, None);
      case Rename(index, worktree, middle, path, source) =>
        RenameMeans(status, Letters(index, worktree), middle, path, source);
        LettersMean(index, worktree, path, Some(source));
      case Unmerged(xy, middle, path) => UnmergedMeans(status, xy, middle, path, next);
      case UntrackedItem(path) => UntrackedMeans(status, path, next);
      case IgnoredItem(path) =>
        NotAHeader([BANG, SPACE] + path);
        SkippedMeans(status, [BANG, SPACE] + path, next);
    }
    assert records[|Records(item)|..] == rest;
  }

  lemma {:induction false} ItemsMean(status: Status, items: seq<Item>, rest: seq<seq<byte>>)
    requires forall i :: 0 <= i < |items| ==> WellFormed(items[i])
    ensures ReadRecords(status, RecordsOf(items) + rest) == ReadRecords(MeaningOf(status, items), rest)
    decreases |items|
  {
    if items == [] {
      assert RecordsOf(items) + rest == rest;
    } else {
      assert RecordsOf(items) + rest == Records(items[0]) + (RecordsOf(items[1..]) + rest);
      ItemMeans(status, items[0], RecordsOf(items[1..]) + rest);
      ItemsMean(Meaning(status, items[0]), items[1..], rest);
    }
  }

  lemma NulFreeEntry(tag: byte, xy: seq<byte>, middle: seq<seq<byte>>, path: seq<byte>)
    requires tag != NUL && NUL !in xy && (forall i :: 0 <= i < |middle| ==> NUL !in middle[i]) && NUL !in path
    ensures NUL !in EntryRecord(tag, xy, middle, path)
  {
    NulFreeFields([[tag], xy] + middle, path);
  }

  lemma NulFreeAb(ahead: nat, behind: nat)
    ensures NUL !in BRANCH + (AB + (([PLUS] + Digits(ahead)) + [SPACE] + ([MINUS] + Digits(behind))))
  {
    DigitsRoundTrip(ahead);
    DigitsRoundTrip(behind);
  }

  lemma NulFreeRecords(item: Item)
    requires WellFormed(item)
    ensures forall i :: 0 <= i < |Records(item)| ==> NUL !in Records(item)[i]
  {
    match item {
      case BranchAb(ahead, behind) => NulFreeAb(ahead, behind);
      case Ordinary(index, worktree, middle, path) => NulFreeEntry(ONE, Letters(index, worktree), middle, path);
      case Rename(index, worktree, middle, path, _) => NulFreeEntry(TWO, Letters(index, worktree), middle, path);
      case Unmerged(xy, middle, path) => NulFreeEntry(LOWER_U, xy, middle, path);
      case _ =>
    }
  }

  lemma {:induction false} NulFreeOutput(items: seq<Item>)
    requires forall i :: 0 <= i < |items| ==> WellFormed(items[i])
    ensures forall i :: 0 <= i < |RecordsOf(items)| ==> NUL !in RecordsOf(items)[i]
  {
    if items != [] {
      NulFreeRecords(items[0]);
      NulFreeOutput(items[1..]);
    }
  }

  /** Parsing undoes printing: for any headers and entries, in any order, with paths that hold
      any bytes but NUL, the parser returns what they mean. */
  lemma ParsingUndoesPrinting(items: seq<Item>)
    requires forall i :: 0 <= i < |items| ==> WellFormed(items[i])
    ensures ReadRecords(NoStatus(), Split(Output(items), NUL)) == Ok(MeaningOf(NoStatus(), items))
  {
    NulFreeOutput(items);
    SplitEnded(RecordsOf(items));
    ItemsMean(NoStatus(), items, [[]]);
    var last: seq<seq<byte>> := [[]];
    assert last[1..] == [];
  }

  function FileOf(item: Item): seq<File> {
    match item
    case Ordinary(index, worktree, _, path) => [Changed(index, worktree, path, None)]
    case Rename(index, worktree, _, path, source) => [Changed(index, worktree, path, Some(source))]
    case Unmerged(_, _, path) => [File(path, None, Conflicted, true, true)]
    case UntrackedItem(path) => [File(path, None, Untracked, false, true)]
    case _ => []
  }

  function FilesOf(items: seq<Item>): seq<File> {
    if items == [] then [] else FileOf(items[0]) + FilesOf(items[1..])
  }

  // The files come out in the order of the entries, one each.
  lemma {:induction false} FilesInOrder(status: Status, items: seq<Item>)
    ensures MeaningOf(status, items).files == status.files + FilesOf(items)
    decreases |items|
  {
    if items == [] {
      assert status.files + [] == status.files;
    } else {
      FilesInOrder(Meaning(status, items[0]), items[1..]);
      assert Meaning(status, items[0]).files == status.files + FileOf(items[0]);
      assert status.files + FileOf(items[0]) + FilesOf(items[1..]) ==
        status.files + (FileOf(items[0]) + FilesOf(items[1..]));
    }
  }

  // ----- what cannot be parsed -----

  function Spaces(s: seq<byte>): nat {
    if s == [] then 0 else (if s[0] == SPACE then 1 else 0) + Spaces(s[1..])
  }

  lemma {:induction false} NoSpaces(s: seq<byte>)
    ensures Spaces(s) == 0 <==> SPACE !in s
  {
    if s != [] {
      NoSpaces(s[1..]);
    }
  }

  // The first field, and one space fewer after it.
  lemma {:induction false} FirstField(s: seq<byte>)
    requires SPACE in s
    ensures var first := Split(s, SPACE)[0];
            |first| < |s| && s[|first|] == SPACE && Spaces(s[|first| + 1..]) == Spaces(s) - 1
  {
    if s[0] != SPACE {
      FirstField(s[1..]);
      var first := Split(s[1..], SPACE)[0];
      assert Split(s, SPACE)[0] == [s[0]] + first;
      assert s[1..][|first| + 1..] == s[|first| + 2..];
    }
  }

  lemma {:induction false} SplitNCounts(s: seq<byte>, n: nat)
    requires n > 0
    ensures |SplitN(s, n, SPACE)| == if Spaces(s) < n then Spaces(s) + 1 else n
    decreases n
  {
    NoSpaces(s);
    if n > 1 && SPACE in s {
      FirstField(s);
      SplitNCounts(s[|Split(s, SPACE)[0]| + 1..], n - 1);
    }
  }

  /** A record that is no header and lacks fields, or starts with a letter git does not use. */
  predicate IsMalformed(record: seq<byte>) {
    && record != []
    && !IsHeaderRecord(record)
    && (match record[0] as char
        case '1' => Spaces(record) < 8
        case '2' => Spaces(record) < 9
        case 'u' => Spaces(record) < 10
        case first => first !in {'?', '!', '#'})
  }

  predicate IsHeaderRecord(record: seq<byte>) { BRANCH <= record && IsRead(record[|BRANCH|..]) }

  lemma EntryFailsIff(status: Status, record: seq<byte>, next: Option<seq<byte>>, spaces: nat)
    requires record != [] && !IsHeaderRecord(record)
    requires || (record[0] == ONE && spaces == 8) || (record[0] == TWO && spaces == 9)
             || (record[0] == LOWER_U && spaces == 10)
    ensures ReadRecord(status, record, next).Err? <==> Spaces(record) < spaces
  {
    SplitNCounts(record, spaces + 1);
  }

  lemma OtherFailsIff(status: Status, record: seq<byte>, next: Option<seq<byte>>)
    requires record != [] && !IsHeaderRecord(record) && record[0] !in {ONE, TWO, LOWER_U}
    ensures ReadRecord(status, record, next).Err? <==> record[0] !in {QUERY, BANG, HASH}
  {
  }

  /** Exactly the malformed records fail. */
  lemma MalformedRecordsFail(status: Status, record: seq<byte>, next: Option<seq<byte>>)
    ensures ReadRecord(status, record, next).Err? <==> IsMalformed(record)
  {
    if record != [] && !IsHeaderRecord(record) {
      if record[0] == ONE {
        EntryFailsIff(status, record, next, 8);
      } else if record[0] == TWO {
        EntryFailsIff(status, record, next, 9);
      } else if record[0] == LOWER_U {
        EntryFailsIff(status, record, next, 10);
      } else {
        OtherFailsIff(status, record, next);
      }
    }
  }

  /** A malformed record after any well-formed items makes the whole output invalid. */
  lemma MalformedOutputFails(items: seq<Item>, record: seq<byte>, rest: seq<seq<byte>>)
    requires forall i :: 0 <= i < |items| ==> WellFormed(items[i])
    requires forall i :: 0 <= i < |rest| ==> NUL !in rest[i]
    requires NUL !in record && IsMalformed(record)
    ensures ReadRecords(NoStatus(), Split(Ended(RecordsOf(items) + ([record] + rest)), NUL)) == Err(InvalidOutput)
  {
    NulFreeOutput(items);
    var records := RecordsOf(items) + ([record] + rest);
    forall i | 0 <= i < |records| ensures NUL !in records[i] {
      if i < |RecordsOf(items)| {
        assert records[i] == RecordsOf(items)[i];
      } else if i > |RecordsOf(items)| {
        assert records[i] == rest[i - |RecordsOf(items)| - 1];
      }
    }
    SplitEnded(records);
    var last: seq<seq<byte>> := [record] + rest + [[]];
    assert records + [[]] == RecordsOf(items) + last;
    ItemsMean(NoStatus(), items, last);
    MalformedRecordsFail(MeaningOf(NoStatus(), items), record, Some(last[1]));
  }

  /** The bytes the parser looks for are git's. */
  lemma HeadersAreGits()
    ensures BRANCH + HEAD == Plain("# branch.head ") && BRANCH + AB == Plain("# branch.ab ")
    ensures BRANCH + UPSTREAM == Plain("# branch.upstream ") && DETACHED == Plain("(detached)")
    ensures [ONE, TWO, LOWER_U, QUERY, BANG, HASH, DOT, PLUS, MINUS] == Plain("12u?!#.+-")
  {
  }
}
