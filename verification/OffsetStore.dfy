/** Committed consumer offsets: one small file per group, topic and partition, replaced by an atomic
    rename. */
module OffsetStores {
  import opened Basics
  import opened Decimal
  import opened FileNames
  import opened RetryCodec
  import opened Topics

  datatype OffsetKey = OffsetKey(group: bytes, topic: bytes, partition: nat)

  /** The directory of committed offsets: the files of each group, by name. */
  type Disk = map<bytes, map<bytes, bytes>>

  const NEWLINE: byte := 10
  const SPACE: byte := 32
  /** "logmq_consumer_offset_v1" */
  const MAGIC: bytes := [108, 111, 103, 109, 113, 95, 99, 111, 110, 115, 117, 109, 101, 114, 95, 111, 102, 102, 115,
                         101, 116, 95, 118, 49]

  predicate ValidKey(k: OffsetKey) {
    SafeName(k.group) && ValidTopicName(k.topic) && k.partition <= MAX_PARTITION
  }

  // ---- The body of a file ----

  function Body(k: OffsetKey, offset: nat): bytes {
    MAGIC + [NEWLINE] + k.group + [SPACE] + k.topic + [SPACE] + Printed(k.partition) + [SPACE] + Printed(offset)
      + [NEWLINE]
  }

  predicate IsSpace(c: byte) { c == SPACE || 9 <= c <= 13 }

  /** How far a run of bytes goes that are, or are not, white space. */
  function RunLength(s: bytes, space: bool): (n: nat)
    ensures n <= |s|
    ensures forall i :: 0 <= i < n ==> IsSpace(s[i]) == space
    ensures n < |s| ==> IsSpace(s[n]) != space
  {
    if s == [] || IsSpace(s[0]) != space then 0 else 1 + RunLength(s[1..], space)
  }

  function SkipSpace(s: bytes): bytes { s[RunLength(s, true)..] }

  datatype Extracted<+T> = Extracted(value: T, rest: bytes)

  /** operator>> into a string: white space skipped, then everything up to the next. */
  function ReadWord(s: bytes): Option<Extracted<bytes>> {
    var t := SkipSpace(s);
    var n := RunLength(t, false);
    if n == 0 then None else Some(Extracted(t[..n], t[n..]))
  }

  function DigitRun(s: bytes): (n: nat)
    ensures n <= |s| && AllDigits(s[..n]) && (n < |s| ==> !IsDigit(s[n]))
    ensures forall i :: 0 <= i < n ==> IsDigit(s[i])
  {
    if s == [] || !IsDigit(s[0]) then 0 else 1 + DigitRun(s[1..])
  }

  const PLUS: byte := 43

  /** operator>> into a 64-bit number: white space skipped, an optional sign, as many digits as there
      are; a number that does not fit is a failure. */
  function ReadNumber(s: bytes): Option<Extracted<int>> {
    var t := SkipSpace(s);
    var signed := t != [] && (t[0] == DASH || t[0] == PLUS);
    var u := if signed then t[1..] else t;
    var n := DigitRun(u);
    if n == 0 then None
    else
      var magnitude: int := Number(u[..n]);
      var v := if signed && t[0] == DASH then -magnitude else magnitude;
      if -TWO_63 <= v < TWO_63 then Some(Extracted(v, u[n..])) else None
  }

  /** The four words after the first line of a file whose name says group, topic and partition; None
      if they are not in order. */
  function OffsetInLine(line: bytes, k: OffsetKey): Option<nat> {
    var group := ReadWord(line);
    if group.None? then None
    else
      var topic := ReadWord(group.value.rest);
      if topic.None? then None
      else
        var partition := ReadNumber(topic.value.rest);
        if partition.None? then None
        else
          var offset := ReadNumber(partition.value.rest);
          if offset.None? || ReadWord(offset.value.rest).Some? then None
          else if group.value.value != k.group || topic.value.value != k.topic
                  || partition.value.value != k.partition || !ValidTopicName(topic.value.value)
                  || offset.value.value < 0
          then None
          else Some(offset.value.value)
  }

  /** What Load makes of the content of such a file. */
  function OffsetIn(content: bytes, k: OffsetKey): Option<nat> {
    var lineEnd := FirstNewline(content);
    if content == [] || content[..lineEnd] != MAGIC then None
    else OffsetInLine(content[Min(lineEnd + 1, |content|)..], k)
  }

  function FirstNewline(s: bytes): (n: nat)
    ensures n <= |s| && (n < |s| ==> s[n] == NEWLINE) && forall i :: 0 <= i < n ==> s[i] != NEWLINE
  {
    if s == [] || s[0] == NEWLINE then 0 else 1 + FirstNewline(s[1..])
  }

  // ---- A body is read back ----

  lemma RunIs(s: bytes, space: bool, n: nat)
    requires n <= |s| && forall i :: 0 <= i < n ==> IsSpace(s[i]) == space
    requires n < |s| ==> IsSpace(s[n]) != space
    ensures RunLength(s, space) == n
  {
  }

  lemma WordThen(word: bytes, rest: bytes)
    requires word != [] && (forall i :: 0 <= i < |word| ==> !IsSpace(word[i])) && (rest != [] ==> IsSpace(rest[0]))
    ensures ReadWord(word + rest) == Some(Extracted(word, rest))
    ensures ReadWord([SPACE] + (word + rest)) == Some(Extracted(word, rest))
  {
    var s := word + rest;
    RunIs(s, true, 0);
    RunIs(s, false, |word|);
    RunIs([SPACE] + s, true, 1);
    assert ([SPACE] + s)[1..] == s;
    assert s[..|word|] == word && s[|word|..] == rest;
  }

  lemma DigitsThen(digits: bytes, rest: bytes)
    requires AllDigits(digits) && (rest != [] ==> !IsDigit(rest[0]))
    ensures DigitRun(digits + rest) == |digits|
  {
    assert rest != [] ==> (digits + rest)[|digits|] == rest[0];
  }

  lemma NumberThen(v: nat, rest: bytes)
    requires v < TWO_63 && (rest != [] ==> IsSpace(rest[0]))
    ensures ReadNumber([SPACE] + (Printed(v) + rest)) == Some(Extracted(v, rest))
  {
    hide Number, Printed;
    var s := Printed(v) + rest;
    assert IsDigit(Printed(v)[0]);
    RunIs([SPACE] + s, true, 1);
    assert ([SPACE] + s)[1..] == s;
    DigitsThen(Printed(v), rest);
    assert s[..|Printed(v)|] == Printed(v) && s[|Printed(v)|..] == rest;
    NumberOfPrinted(v);
  }

  lemma FirstLine(line: bytes, rest: bytes)
    requires forall i :: 0 <= i < |line| ==> line[i] != NEWLINE
    ensures var s := line + ([NEWLINE] + rest);
      FirstNewline(s) == |line| && s[..|line|] == line && s[|line| + 1..] == rest
  {
    var s := line + ([NEWLINE] + rest);
    assert s[|line|] == NEWLINE;
    assert forall i :: 0 <= i < |line| ==> s[i] == line[i];
  }

  lemma NamesHaveNoSpace(k: OffsetKey)
    requires ValidKey(k)
    ensures k.group != [] && forall i :: 0 <= i < |k.group| ==> !IsSpace(k.group[i])
    ensures k.topic != [] && forall i :: 0 <= i < |k.topic| ==> !IsSpace(k.topic[i])
  {
    assert forall i :: 0 <= i < |k.group| ==> NameByte(k.group[i]);
    PrefixBytes(k.topic);
    var original := OriginalOf(k.topic);
    var n := |k.topic| - |original|;
    forall i | 0 <= i < |k.topic| ensures !IsSpace(k.topic[i]) {
      if i >= n { assert k.topic[i] == original[i - n] && NameByte(original[i - n]); }
    }
  }

  lemma PrefixBytes(topic: bytes)
    ensures var n := |topic| - |OriginalOf(topic)|;
      0 <= n <= |topic| && OriginalOf(topic) == topic[n..] && forall i :: 0 <= i < n ==> 33 <= topic[i] <= 90
  {
    if IsRetryTopic(topic) {
      assert forall i :: 0 <= i < |RETRY_PREFIX| ==> topic[i] == RETRY_PREFIX[i];
    } else if IsDlqTopic(topic) {
      assert forall i :: 0 <= i < |DLQ_PREFIX| ==> topic[i] == DLQ_PREFIX[i];
    }
  }

  function BodyLine(k: OffsetKey, offset: nat): bytes {
    k.group + ([SPACE] + (k.topic + ([SPACE] + (Printed(k.partition) + ([SPACE] + (Printed(offset) + [NEWLINE]))))))
  }

  lemma LineRoundTrip(k: OffsetKey, offset: nat, name: OffsetKey)
    requires ValidKey(k) && offset <= MAX_OFFSET
    ensures OffsetInLine(BodyLine(k, offset), name) == if name == k then Some(offset) else None
  {
    hide ReadWord, ReadNumber, Printed, SafeName;
    NamesHaveNoSpace(k);
    var e: bytes := [NEWLINE];
    var d := [SPACE] + (Printed(offset) + e);
    var c := [SPACE] + (Printed(k.partition) + d);
    var b := [SPACE] + (k.topic + c);
    WordThen(k.group, b);
    WordThen(k.topic, c);
    NumberThen(k.partition, d);
    NumberThen(offset, e);
    NoWordIn(e);
  }

  lemma BodyParts(k: OffsetKey, offset: nat, magic: bytes)
    requires magic == MAGIC
    ensures Body(k, offset) == magic + ([NEWLINE] + BodyLine(k, offset))
  {
    hide Printed;
  }

  /** What Commit writes, Load reads, and only in the file of the same group, topic and partition. */
  lemma BodyForItsKey(k: OffsetKey, offset: nat, name: OffsetKey)
    requires ValidKey(k) && offset <= MAX_OFFSET
    ensures OffsetIn(Body(k, offset), name) == if name == k then Some(offset) else None
  {
    hide OffsetInLine, BodyLine, Body, FirstNewline, ValidKey;
    var magic := MAGIC;
    BodyParts(k, offset, magic);
    FirstLine(magic, BodyLine(k, offset));
    LineRoundTrip(k, offset, name);
  }

  lemma BodyRoundTrip(k: OffsetKey, offset: nat)
    requires ValidKey(k) && offset <= MAX_OFFSET
    ensures OffsetIn(Body(k, offset), k) == Some(offset)
  {
    hide OffsetIn, Body;
    BodyForItsKey(k, offset, k);
  }

  lemma NoWordIn(s: bytes)
    requires s == [NEWLINE]
    ensures ReadWord(s).None?
  {
    RunIs(s, true, 1);
  }

  // ---- The disk and the map it stands for ----

  function KeyOfFile(group: bytes, name: bytes): Option<OffsetKey> {
    var tp := OffsetNameOf(name);
    if tp.None? then None else Some(OffsetKey(group, tp.value.topic, tp.value.partition))
  }

  /** A file Load has nothing against: either not a committed offset by its name, or a good one. */
  predicate FileFine(group: bytes, name: bytes, content: bytes) {
    var k := KeyOfFile(group, name);
    k.Some? ==> ValidTopicName(k.value.topic) && OffsetIn(content, k.value).Some?
  }

  predicate GroupFine(disk: Disk, group: bytes)
    requires group in disk
  {
    SafeName(group) && forall name :: name in disk[group] ==> FileFine(group, name, disk[group][name])
  }

  predicate Loadable(disk: Disk) {
    forall group :: group in disk ==> GroupFine(disk, group)
  }

  /** The file gives the key its offset. */
  predicate Gives(disk: Disk, group: bytes, name: bytes, k: OffsetKey, offset: nat) {
    group in disk && name in disk[group] && KeyOfFile(group, name) == Some(k)
      && OffsetIn(disk[group][name], k) == Some(offset)
  }

  /** Every file is accounted for, and every entry comes from a file. */
  ghost predicate Loaded(disk: Disk, offsets: map<OffsetKey, nat>) {
    && (forall group, name :: group in disk && name in disk[group] && KeyOfFile(group, name).Some? ==>
          KeyOfFile(group, name).value in offsets)
    && forall k :: k in offsets ==> exists name :: Gives(disk, k.group, name, k, offsets[k])
  }

  /** The disk holds exactly one file for each committed offset, under its own name; there may be
      other files that are not read. */
  ghost predicate Keeps(disk: Disk, offsets: map<OffsetKey, nat>) {
    && (forall group :: group in disk ==> SafeName(group))
    && (forall k :: k in offsets ==> KeptAt(disk, k, offsets[k]))
    && forall group, name :: group in disk && name in disk[group] ==> Counted(offsets, group, name)
  }

  /** A file that is read is that of a committed offset. */
  predicate Counted(offsets: map<OffsetKey, nat>, group: bytes, name: bytes) {
    var k := KeyOfFile(group, name);
    k.Some? ==> k.value in offsets && name == NameFor(k.value)
  }

  function NameFor(k: OffsetKey): bytes { OffsetName(k.topic, k.partition) }
  function TempFor(k: OffsetKey): bytes { OffsetTempName(k.topic, k.partition) }

  predicate KeptAt(disk: Disk, k: OffsetKey, offset: nat) {
    && ValidKey(k) && offset <= MAX_OFFSET
    && k.group in disk && NameFor(k) in disk[k.group] && disk[k.group][NameFor(k)] == Body(k, offset)
  }

  const SLASH: byte := 47

  /** The directory of a group and the file of an offset in it are single components of a path, so no name
      leads out of the directory of committed offsets. */
  lemma FilesStayInside(k: OffsetKey)
    requires ValidKey(k)
    ensures SLASH !in k.group && k.group != [] && k.group != [DOT] && k.group != [DOT, DOT]
    ensures SLASH !in NameFor(k) && SLASH !in TempFor(k) && |TempFor(k)| > |NameFor(k)| > 2
  {
    hide Printed;
    PrefixBytes(k.topic);
    var original := OriginalOf(k.topic);
    var n := |k.topic| - |original|;
    forall i | 0 <= i < |k.topic| ensures k.topic[i] != SLASH {
      if i >= n { assert k.topic[i] == original[i - n] && NameByte(original[i - n]); }
    }
    forall i | 0 <= i < |Printed(k.partition)| ensures Printed(k.partition)[i] != SLASH {
      assert IsDigit(Printed(k.partition)[i]);
    }
  }

  lemma TopicNotEmpty(topic: bytes)
    requires ValidTopicName(topic)
    ensures topic != []
  {
  }

  lemma KeyOfName(k: OffsetKey)
    requires ValidKey(k)
    ensures KeyOfFile(k.group, NameFor(k)) == Some(k) && KeyOfFile(k.group, TempFor(k)) == None
  {
    hide OffsetNameOf, OffsetName, OffsetTempName, SafeName, ValidTopicName;
    TopicNotEmpty(k.topic);
    OffsetNameRoundTrip(k.topic, k.partition);
    TempNameIgnored(k.topic, k.partition);
  }

  lemma KeptFile(disk: Disk, k: OffsetKey, offset: nat)
    requires KeptAt(disk, k, offset)
    ensures Gives(disk, k.group, NameFor(k), k, offset)
  {
    hide OffsetIn, Body, KeyOfFile, NameFor, SafeName, ValidTopicName;
    KeyOfName(k);
    BodyRoundTrip(k, offset);
  }

  /** From a disk that keeps a map, Load reads that map and nothing else. */
  lemma KeptIsLoaded(disk: Disk, offsets: map<OffsetKey, nat>)
    requires Keeps(disk, offsets)
    ensures Loadable(disk)
    ensures Loaded(disk, offsets)
    ensures forall found :: Loaded(disk, found) ==> found == offsets
  {
    hide OffsetIn, Body, KeyOfFile, NameFor, SafeName, ValidTopicName;
    forall k | k in offsets ensures Gives(disk, k.group, NameFor(k), k, offsets[k]) {
      KeptFile(disk, k, offsets[k]);
    }
    forall group, name | group in disk && name in disk[group] ensures FileFine(group, name, disk[group][name]) {
      KeyHasGroup(group, name);
      if KeyOfFile(group, name).Some? {
        var k := KeyOfFile(group, name).value;
        assert Gives(disk, k.group, NameFor(k), k, offsets[k]);
        assert KeptAt(disk, k, offsets[k]);
      }
    }
    forall found | Loaded(disk, found) ensures found == offsets {
      LoadedIsKept(disk, offsets, found);
    }
  }

  lemma KeyHasGroup(group: bytes, name: bytes)
    ensures KeyOfFile(group, name).Some? ==> KeyOfFile(group, name).value.group == group
  {
    hide OffsetNameOf;
  }

  lemma LoadedIsKept(disk: Disk, offsets: map<OffsetKey, nat>, found: map<OffsetKey, nat>)
    requires Keeps(disk, offsets) && Loaded(disk, found)
    ensures found == offsets
  {
    hide OffsetIn, Body, KeyOfFile, NameFor, SafeName, ValidTopicName;
    forall k | k in found ensures k in offsets && found[k] == offsets[k] {
      var name :| Gives(disk, k.group, name, k, found[k]);
      assert name == NameFor(k);
      KeptFile(disk, k, offsets[k]);
    }
    forall k | k in offsets ensures k in found {
      KeptFile(disk, k, offsets[k]);
      assert KeyOfFile(k.group, NameFor(k)).value in found;
    }
  }

  // ---- Commit ----

  /** How far a commit got: before or after its directory was made, with some bytes of its temporary
      file written, or past the rename. */
  datatype Progress = Nothing | DirectoryMade | TempWritten(count: nat) | Renamed

  function WithDirectory(disk: Disk, group: bytes): Disk {
    if group in disk then disk else disk[group := map[]]
  }

  function WithTemp(disk: Disk, k: OffsetKey, content: bytes): Disk {
    var d := WithDirectory(disk, k.group);
    d[k.group := d[k.group][TempFor(k) := content]]
  }

  /** The rename replaces the final file, if there was one, by the temporary one. */
  function WithRename(disk: Disk, k: OffsetKey, content: bytes): Disk {
    var d := WithDirectory(disk, k.group);
    d[k.group := (d[k.group] - {TempFor(k)})[NameFor(k) := content]]
  }

  function DiskAfter(disk: Disk, k: OffsetKey, offset: nat, progress: Progress): Disk {
    match progress
    case Nothing => disk
    case DirectoryMade => WithDirectory(disk, k.group)
    case TempWritten(n) => WithTemp(disk, k, Body(k, offset)[..Min(n, |Body(k, offset)|)])
    case Renamed => WithRename(disk, k, Body(k, offset))
  }

  function OffsetsAfter(offsets: map<OffsetKey, nat>, k: OffsetKey, offset: nat, progress: Progress)
    : map<OffsetKey, nat>
  {
    if progress.Renamed? then offsets[k := offset] else offsets
  }

  lemma DirectoryKeeps(disk: Disk, offsets: map<OffsetKey, nat>, group: bytes)
    requires Keeps(disk, offsets) && SafeName(group)
    ensures Keeps(WithDirectory(disk, group), offsets)
  {
    hide KeyOfFile, NameFor, SafeName, Body, ValidKey;
    var d := WithDirectory(disk, group);
    forall k | k in offsets ensures KeptAt(d, k, offsets[k]) {
      assert KeptAt(disk, k, offsets[k]);
    }
  }

  lemma TempKeeps(disk: Disk, offsets: map<OffsetKey, nat>, k: OffsetKey, content: bytes)
    requires Keeps(disk, offsets) && ValidKey(k)
    ensures Keeps(WithTemp(disk, k, content), offsets)
  {
    hide KeyOfFile, NameFor, TempFor, SafeName, ValidTopicName, Body, OffsetIn, WithDirectory;
    DirectoryKeeps(disk, offsets, k.group);
    DirectoryMadeIn(disk, k.group);
    KeyOfName(k);
    var d := WithTemp(disk, k, content);
    forall o | o in offsets ensures KeptAt(d, o, offsets[o]) {
      assert KeptAt(WithDirectory(disk, k.group), o, offsets[o]);
      KeyOfName(o);
    }
  }

  lemma DirectoryMadeIn(disk: Disk, group: bytes)
    ensures group in WithDirectory(disk, group)
  {
  }

  lemma RenameKeeps(disk: Disk, offsets: map<OffsetKey, nat>, k: OffsetKey, offset: nat)
    requires Keeps(disk, offsets) && ValidKey(k) && offset <= MAX_OFFSET
    ensures Keeps(WithRename(disk, k, Body(k, offset)), offsets[k := offset])
  {
    hide KeyOfFile, NameFor, TempFor, SafeName, ValidTopicName, Body, OffsetIn, WithDirectory, KeptAt, Counted,
      WithRename;
    DirectoryKeeps(disk, offsets, k.group);
    DirectoryMadeIn(disk, k.group);
    KeyOfName(k);
    var before, d := WithDirectory(disk, k.group), WithRename(disk, k, Body(k, offset));
    var offsets' := offsets[k := offset];
    RenamedKeys(disk, k, Body(k, offset));
    forall o | o in offsets' ensures KeptAt(d, o, offsets'[o]) {
      if o == k {
        RenamedFile(disk, k, offset);
      } else {
        RenameSpares(disk, k, Body(k, offset), o, offsets[o]);
      }
    }
    forall group, name | group in d && name in d[group] ensures Counted(offsets', group, name) {
      RenamedNames(disk, k, Body(k, offset), group, name);
      if !(group == k.group && name == NameFor(k)) {
        assert Counted(offsets, group, name);
        CountedMore(offsets, k, offset, group, name);
      } else {
        CountedNew(offsets, k, offset);
      }
    }
  }

  lemma RenamedKeys(disk: Disk, k: OffsetKey, content: bytes)
    ensures WithRename(disk, k, content).Keys == WithDirectory(disk, k.group).Keys
  {
    hide NameFor, TempFor;
  }

  lemma RenamedFile(disk: Disk, k: OffsetKey, offset: nat)
    requires ValidKey(k) && offset <= MAX_OFFSET
    ensures KeptAt(WithRename(disk, k, Body(k, offset)), k, offset)
  {
    hide NameFor, TempFor, Body, ValidKey;
  }

  lemma RenameSpares(disk: Disk, k: OffsetKey, content: bytes, o: OffsetKey, offset: nat)
    requires ValidKey(k) && o != k && KeptAt(WithDirectory(disk, k.group), o, offset)
    ensures KeptAt(WithRename(disk, k, content), o, offset)
  {
    hide NameFor, TempFor, Body, KeyOfFile, SafeName, ValidTopicName, WithDirectory;
    DirectoryMadeIn(disk, k.group);
    KeyOfName(k);
    KeyOfName(o);
  }

  lemma RenamedNames(disk: Disk, k: OffsetKey, content: bytes, group: bytes, name: bytes)
    requires var d := WithRename(disk, k, content); group in d && name in d[group]
    ensures group in WithDirectory(disk, k.group)
    ensures !(group == k.group && name == NameFor(k)) ==> name in WithDirectory(disk, k.group)[group]
  {
    hide NameFor, TempFor;
  }

  lemma CountedMore(offsets: map<OffsetKey, nat>, k: OffsetKey, offset: nat, group: bytes, name: bytes)
    requires Counted(offsets, group, name)
    ensures Counted(offsets[k := offset], group, name)
  {
    hide NameFor, KeyOfFile;
  }

  lemma CountedNew(offsets: map<OffsetKey, nat>, k: OffsetKey, offset: nat)
    requires ValidKey(k)
    ensures Counted(offsets[k := offset], k.group, NameFor(k))
  {
    hide NameFor, KeyOfFile, SafeName, ValidTopicName;
    KeyOfName(k);
  }

  /** A commit interrupted anywhere leaves a disk from which Load reads the offsets before that commit,
      or, once the rename has happened, after it. */
  lemma CommitSurvivesCrash(disk: Disk, offsets: map<OffsetKey, nat>, k: OffsetKey, offset: nat, progress: Progress)
    requires Keeps(disk, offsets) && ValidKey(k) && offset <= MAX_OFFSET
    ensures var crashed := DiskAfter(disk, k, offset, progress);
      && Keeps(crashed, OffsetsAfter(offsets, k, offset, progress))
      && Loadable(crashed)
      && forall found :: Loaded(crashed, found) ==> found == OffsetsAfter(offsets, k, offset, progress)
  {
    hide Keeps, Loadable, Loaded, Body, SafeName, ValidTopicName, WithTemp, WithRename, WithDirectory;
    match progress
    case Nothing => KeptIsLoaded(disk, offsets);
    case DirectoryMade =>
      DirectoryKeeps(disk, offsets, k.group);
      KeptIsLoaded(WithDirectory(disk, k.group), offsets);
    case TempWritten(n) =>
      var content := Body(k, offset)[..Min(n, |Body(k, offset)|)];
      TempKeeps(disk, offsets, k, content);
      KeptIsLoaded(WithTemp(disk, k, content), offsets);
    case Renamed =>
      RenameKeeps(disk, offsets, k, offset);
      KeptIsLoaded(WithRename(disk, k, Body(k, offset)), offsets[k := offset]);
  }

  // ---- The store ----

  function Checked(group: bytes, topic: bytes, partition: i32): Result<OffsetKey> {
    if !SafeName(group) || !ValidTopicName(topic) || partition < 0 then Err(InvalidArgument)
    else Ok(OffsetKey(group, topic, partition))
  }

  class OffsetStore {
    var disk: Disk
    var offsets: map<OffsetKey, nat>

    ghost predicate Valid()
      reads this
    {
      Keeps(disk, offsets)
    }

    /** A store on an empty directory. */
    constructor ()
      ensures Valid() && offsets == map[]
    {
      disk := map[];
      offsets := map[];
    }

    /** A store on whatever the directory holds; nothing is in memory before Load. */
    constructor On(disk: Disk)
      ensures this.disk == disk && this.offsets == map[]
    {
      this.disk := disk;
      this.offsets := map[];
    }

    /** Load, with the directory entries in any order: it succeeds exactly when every group name and
        every file that is read is in order; if it fails the map in memory stays as it was. */
    method Load() returns (ok: bool)
      modifies this`offsets
      ensures ok <==> Loadable(disk)
      ensures ok ==> Loaded(disk, offsets)
      ensures !ok ==> offsets == old(offsets)
      ensures forall m :: Keeps(disk, m) ==> ok && offsets == m
    {
      hide Keeps, SafeName, FileFine, OffsetIn, KeyOfFile;
      var loaded: map<OffsetKey, nat> := map[];
      var groups := disk.Keys;
      ok := true;
      while ok && groups != {}
        invariant groups <= disk.Keys
        invariant ok ==> forall group :: group in disk && group !in groups ==> GroupFine(disk, group)
        invariant ok ==> LoadedFrom(disk, disk.Keys - groups, loaded)
        invariant offsets == old(offsets)
        invariant !ok ==> !Loadable(disk)
        decreases groups, ok
      {
        var group :| group in groups;
        groups := groups - {group};
        ok, loaded := LoadGroup(group, disk.Keys - groups - {group}, loaded);
        assert ok ==> disk.Keys - groups - {group} + {group} == disk.Keys - groups;
      }
      if ok {
        assert disk.Keys - {} == disk.Keys;
        assert Loaded(disk, loaded);
        offsets := loaded;
      }
      forall m | Keeps(disk, m) ensures ok && offsets == m {
        KeptIsLoaded(disk, m);
      }
    }

    method LoadGroup(group: bytes, done: set<bytes>, before: map<OffsetKey, nat>)
      returns (ok: bool, loaded: map<OffsetKey, nat>)
      requires group in disk && group !in done && done <= disk.Keys && LoadedFrom(disk, done, before)
      ensures ok <==> GroupFine(disk, group)
      ensures ok ==> LoadedFrom(disk, done + {group}, loaded)
    {
      hide SafeName, OffsetIn, KeyOfFile, LoadedFrom, GroupLoaded, ValidTopicName;
      GroupNotLoaded(disk, done, group, before);
      loaded := before;
      if !SafeName(group) {
        return false, loaded;
      }
      var names := disk[group].Keys;
      while names != {}
        invariant names <= disk[group].Keys
        invariant forall name :: name in disk[group] && name !in names ==> FileFine(group, name, disk[group][name])
        invariant GroupLoaded(disk, done, group, names, loaded)
        decreases |names|
      {
        var name :| name in names;
        assert names - {name} + {name} == names;
        names := names - {name};
        var k := KeyOfFile(group, name);
        if k.Some? {
          KeyHasGroup(group, name);
          var offset := OffsetIn(disk[group][name], k.value);
          if !ValidTopicName(k.value.topic) || offset.None? {
            assert !FileFine(group, name, disk[group][name]);
            return false, loaded;
          }
          LoadOneMore(disk, done, group, names, name, loaded);
          if k.value !in loaded {
            loaded := loaded[k.value := offset.value];
          }
        } else {
          LoadNoMore(disk, done, group, names, name, loaded);
        }
      }
      GroupDone(disk, done, group, loaded);
      return true, loaded;
    }

    /** Commit; progress says how far persisting gets before the file system fails. The map in memory
        changes only with the file, and every failure leaves both as they were. */
    method Commit(group: bytes, topic: bytes, partition: i32, offset: i64, progress: Progress) returns (r: Result<Unit>)
      requires Valid()
      modifies this
      ensures Valid()
      ensures var k := Checked(group, topic, partition);
        if k.Err? || offset < 0 then r == Err(InvalidArgument) && disk == old(disk) && offsets == old(offsets)
        else
          && r == (if progress.Renamed? then Ok(Unit) else Err(IoError))
          && disk == DiskAfter(old(disk), k.value, offset, progress)
          && offsets == OffsetsAfter(old(offsets), k.value, offset, progress)
    {
      hide Keeps, SafeName, ValidTopicName, Body, WithTemp, WithRename, WithDirectory;
      if !SafeName(group) || !ValidTopicName(topic) || partition < 0 || offset < 0 {
        return Err(InvalidArgument);
      }
      var k := OffsetKey(group, topic, partition);
      CommitSurvivesCrash(disk, offsets, k, offset, progress);
      disk := DiskAfter(disk, k, offset, progress);
      if !progress.Renamed? {
        return Err(IoError);
      }
      offsets := offsets[k := offset];
      return Ok(Unit);
    }

    method Fetch(group: bytes, topic: bytes, partition: i32) returns (r: Result<Option<nat>>)
      ensures var k := Checked(group, topic, partition);
        r == if k.Err? then Err(InvalidArgument)
             else Ok(if k.value in offsets then Some(offsets[k.value]) else None)
    {
      hide SafeName, ValidTopicName;
      if !SafeName(group) || !ValidTopicName(topic) || partition < 0 {
        return Err(InvalidArgument);
      }
      var k := OffsetKey(group, topic, partition);
      if k in offsets {
        return Ok(Some(offsets[k]));
      }
      return Ok(None);
    }
  }

  /** The map read from the groups done so far. */
  ghost predicate LoadedFrom(disk: Disk, done: set<bytes>, loaded: map<OffsetKey, nat>) {
    && (forall group, name :: group in done && group in disk && name in disk[group] && KeyOfFile(group, name).Some? ==>
          KeyOfFile(group, name).value in loaded)
    && forall k :: k in loaded ==> k.group in done && exists name :: Gives(disk, k.group, name, k, loaded[k])
  }

  /** The same with all but the remaining names of one more group. */
  ghost predicate GroupLoaded(disk: Disk, done: set<bytes>, group: bytes, names: set<bytes>,
                              loaded: map<OffsetKey, nat>)
    requires group in disk
  {
    && (forall g, name :: g in done && g in disk && name in disk[g] && KeyOfFile(g, name).Some? ==>
          KeyOfFile(g, name).value in loaded)
    && (forall name :: name in disk[group] && name !in names && KeyOfFile(group, name).Some? ==>
          KeyOfFile(group, name).value in loaded)
    && forall k :: k in loaded ==>
         (k.group in done || k.group == group) && exists name :: Gives(disk, k.group, name, k, loaded[k])
  }

  lemma GroupNotLoaded(disk: Disk, done: set<bytes>, group: bytes, loaded: map<OffsetKey, nat>)
    requires group in disk && LoadedFrom(disk, done, loaded)
    ensures GroupLoaded(disk, done, group, disk[group].Keys, loaded)
  {
    hide KeyOfFile, Gives;
  }

  lemma LoadOneMore(disk: Disk, done: set<bytes>, group: bytes, names: set<bytes>, name: bytes,
                    loaded: map<OffsetKey, nat>)
    requires group in disk && name in disk[group] && GroupLoaded(disk, done, group, names + {name}, loaded)
    requires KeyOfFile(group, name).Some? && OffsetIn(disk[group][name], KeyOfFile(group, name).value).Some?
    ensures var k := KeyOfFile(group, name).value;
      var more := if k in loaded then loaded else loaded[k := OffsetIn(disk[group][name], k).value];
      GroupLoaded(disk, done, group, names, more)
  {
    hide KeyOfFile, OffsetIn;
    KeyHasGroup(group, name);
    var k := KeyOfFile(group, name).value;
    var more := if k in loaded then loaded else loaded[k := OffsetIn(disk[group][name], k).value];
    forall o | o in more ensures exists n :: Gives(disk, o.group, n, o, more[o]) {
      if o !in loaded { assert Gives(disk, group, name, k, more[k]); }
    }
  }

  lemma LoadNoMore(disk: Disk, done: set<bytes>, group: bytes, names: set<bytes>, name: bytes,
                   loaded: map<OffsetKey, nat>)
    requires group in disk && KeyOfFile(group, name).None? && GroupLoaded(disk, done, group, names + {name}, loaded)
    ensures GroupLoaded(disk, done, group, names, loaded)
  {
    hide KeyOfFile, Gives;
  }

  lemma GroupDone(disk: Disk, done: set<bytes>, group: bytes, loaded: map<OffsetKey, nat>)
    requires group in disk && GroupLoaded(disk, done, group, {}, loaded)
    ensures LoadedFrom(disk, done + {group}, loaded)
  {
    hide KeyOfFile, Gives;
  }
}
