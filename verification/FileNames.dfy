/** The names of segment files and of committed-offset files, and how they are read back. */
module FileNames {
  import opened Basics
  import opened Decimal

  const DOT: byte := 46
  const DASH: byte := 45
  /** ".log" */
  const LOG_EXTENSION: bytes := [46, 108, 111, 103]
  /** ".offset" */
  const OFFSET_EXTENSION: bytes := [46, 111, 102, 102, 115, 101, 116]
  /** ".tmp" */
  const TEMP_EXTENSION: bytes := [46, 116, 109, 112]

  const MAX_PARTITION: nat := 0x7FFF_FFFF

  // ---- Path::extension, Path::stem, string::rfind ----

  /** One more than the position of the last occurrence; zero if there is none. */
  function PastLast(s: bytes, c: byte): (n: nat)
    ensures n <= |s| && (n > 0 ==> s[n - 1] == c)
    ensures forall i :: n <= i < |s| ==> s[i] != c
  {
    if s == [] then 0 else if s[|s| - 1] == c then |s| else PastLast(s[..|s| - 1], c)
  }

  /** Where the extension of a file name starts: at its last dot, unless that is its first character. */
  function ExtensionStart(name: bytes): (n: nat)
    ensures n <= |name|
  {
    var dot := PastLast(name, DOT);
    if dot <= 1 || name == [DOT, DOT] then |name| else dot - 1
  }

  function Extension(name: bytes): bytes { name[ExtensionStart(name)..] }
  function Stem(name: bytes): bytes { name[..ExtensionStart(name)] }

  lemma LastIs(s: bytes, c: byte, n: nat)
    requires n < |s| && s[n] == c && forall i :: n < i < |s| ==> s[i] != c
    ensures PastLast(s, c) == n + 1
  {
  }

  /** Gluing a dotted extension to a non-empty stem. */
  lemma ExtensionOf(stem: bytes, extension: bytes)
    requires stem != [] && |extension| > 1 && extension[0] == DOT
    requires forall i :: 1 <= i < |extension| ==> extension[i] != DOT
    ensures Extension(stem + extension) == extension && Stem(stem + extension) == stem
  {
    var name := stem + extension;
    assert forall i :: |stem| < i < |name| ==> name[i] == extension[i - |stem|];
    LastIs(name, DOT, |stem|);
    assert name[|name| - 1] == extension[|extension| - 1];
  }

  // ---- Segment files ----

  /** SegmentPath: twenty digits, zeros in front. */
  function SegmentName(base: nat): bytes {
    Padded(base, 20) + LOG_EXTENSION
  }

  function BaseOffsetOf(name: bytes): Option<nat> {
    var stem := Stem(name);
    if stem != [] && AllDigits(stem) && Number(stem) <= MAX_OFFSET then Some(Number(stem)) else None
  }

  method ParseBaseOffset(name: bytes) returns (r: Option<nat>)
    ensures r == BaseOffsetOf(name)
  {
    var stem := Stem(name);
    if stem == [] {
      return None;
    }
    r := ParseNumber(stem, MAX_OFFSET);
  }

  /** Every segment file is found again under its base offset, so no two segments share a file. */
  lemma SegmentNameRoundTrip(base: nat)
    ensures Extension(SegmentName(base)) == LOG_EXTENSION
    ensures BaseOffsetOf(SegmentName(base)) == if base <= MAX_OFFSET then Some(base) else None
  {
    ExtensionOf(Padded(base, 20), LOG_EXTENSION);
    NumberOfPadded(base, 20);
  }

  // ---- Committed offsets ----

  /** The last part of OffsetPath. */
  function OffsetName(topic: bytes, partition: nat): bytes {
    topic + [DASH] + Printed(partition) + OFFSET_EXTENSION
  }

  /** The last part of OffsetTempPath. */
  function OffsetTempName(topic: bytes, partition: nat): bytes {
    topic + [DASH] + Printed(partition) + OFFSET_EXTENSION + TEMP_EXTENSION
  }

  datatype TopicPartition = TopicPartition(topic: bytes, partition: nat)

  function OffsetNameOf(name: bytes): (r: Option<TopicPartition>)
    ensures r.Some? ==> r.value.partition <= MAX_PARTITION
  {
    if Extension(name) != OFFSET_EXTENSION then None
    else
      var stem := Stem(name);
      var past := PastLast(stem, DASH);
      if past <= 1 || past >= |stem| then None
      else
        var digits := stem[past..];
        if AllDigits(digits) && Number(digits) <= MAX_PARTITION
        then Some(TopicPartition(stem[..past - 1], Number(digits)))
        else None
  }

  method ParseOffsetFilename(name: bytes) returns (r: Option<TopicPartition>)
    ensures r == OffsetNameOf(name)
  {
    if Extension(name) != OFFSET_EXTENSION {
      return None;
    }
    var stem := Stem(name);
    var past := PastLast(stem, DASH);
    if past <= 1 || past >= |stem| {
      return None;
    }
    var partition := ParseNumber(stem[past..], MAX_PARTITION);
    if partition.None? {
      return None;
    }
    return Some(TopicPartition(stem[..past - 1], partition.value));
  }

  lemma StemOf(topic: bytes, partition: nat)
    requires topic != []
    ensures var stem := topic + [DASH] + Printed(partition);
      && PastLast(stem, DASH) == |topic| + 1 < |stem|
      && stem[..|topic|] == topic && stem[|topic| + 1..] == Printed(partition)
  {
    var digits := Printed(partition);
    var stem := topic + [DASH] + digits;
    forall i | |topic| < i < |stem| ensures stem[i] != DASH {
      assert stem[i] == digits[i - |topic| - 1];
    }
    LastIs(stem, DASH, |topic|);
  }

  /** The name printed for a topic and partition is read back as just these, whatever dashes and dots
      the topic has, exactly as long as the partition fits 32 bits. */
  lemma OffsetNameRoundTrip(topic: bytes, partition: nat)
    requires topic != []
    ensures OffsetNameOf(OffsetName(topic, partition))
         == if partition <= MAX_PARTITION then Some(TopicPartition(topic, partition)) else None
  {
    hide Number, Printed, PastLast, Extension, Stem;
    var stem := topic + [DASH] + Printed(partition);
    ExtensionOf(stem, OFFSET_EXTENSION);
    StemOf(topic, partition);
    NumberOfPrinted(partition);
  }

  /** A name that is read back is the printed one, unless its partition has leading zeros. */
  lemma OffsetNameCanonical(name: bytes)
    requires OffsetNameOf(name).Some?
    ensures var tp := OffsetNameOf(name).value;
      var digits := Stem(name)[PastLast(Stem(name), DASH)..];
      tp.topic != [] && (name == OffsetName(tp.topic, tp.partition) <==> |digits| == 1 || digits[0] != 48)
  {
    hide Number, Printed, PastLast, ExtensionStart;
    var stem := Stem(name);
    var past := PastLast(stem, DASH);
    var tp := OffsetNameOf(name).value;
    var digits := stem[past..];
    assert name == stem + OFFSET_EXTENSION;
    assert stem == tp.topic + [DASH] + digits;
    if |digits| == 1 || digits[0] != 48 {
      PrintedOfNumber(digits);
    } else if name == OffsetName(tp.topic, tp.partition) {
      var shown := tp.topic + [DASH] + Printed(tp.partition);
      assert |shown| == |stem| by { assert |name| == |shown| + |OFFSET_EXTENSION|; }
      assert shown == name[..|stem|] == stem;
      assert digits == Printed(tp.partition) by { assert shown[past..] == Printed(tp.partition); }
      ZeroPrinted(tp.partition);
    }
  }

  lemma ZeroPrinted(n: nat)
    ensures Printed(n)[0] == 48 ==> Printed(n) == [48]
  {
  }

  /** Temporary files are never taken for committed offsets, so their paths never collide. */
  lemma TempNameIgnored(topic: bytes, partition: nat)
    requires topic != []
    ensures OffsetNameOf(OffsetTempName(topic, partition)).None?
  {
    hide Printed, ExtensionStart;
    ExtensionOf(topic + [DASH] + Printed(partition) + OFFSET_EXTENSION, TEMP_EXTENSION);
  }
}
