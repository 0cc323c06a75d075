/** Carving the complete JPEGs out of a file that embeds them (crates/ac-desktop/src/preview.rs).

    Markers and fill bytes are those of section B.1.1 of ITU-T T.81. */
module Jpegs {
  import opened Base

  /** The bytes `from` up to but not including `to`. */
  datatype Range = Range(from: nat, to: nat)

  // ---- the scan, as functions ----

  /** Past the fill bytes that may pad a segment, to the last 0xFF before its marker code. */
  function SkipFill(b: Bytes, at: nat): (m: Option<nat>)
    ensures m.Some? ==> at <= m.value < |b| && (b[m.value] == 0xFF ==> m.value + 1 < |b|)
    decreases |b| - at
  {
    if at >= |b| then None
    else if b[at] != 0xFF then Some(at)
    else if at + 1 >= |b| then None
    else if b[at + 1] == 0xFF then SkipFill(b, at + 1)
    else Some(at)
  }

  predicate Restarts(code: Byte) {
    0xD0 <= code <= 0xD7
  }

  /** The big-endian length at `at`; below 2 it could not cover itself, and there is none. */
  function Length(b: Bytes, at: nat): Option<nat> {
    if at + 1 >= |b| then None
    else
      var high: nat, low: nat := b[at], b[at + 1];
      if high * 256 + low < 2 then None else Some(high * 256 + low)
  }

  /** Where the image data that starts at `at` ends: at a 0xFF whose next byte is neither stuffing, fill
      nor a restart; two bytes at a time past those. */
  function ScanEnd(b: Bytes, at: nat): (end: Option<nat>)
    ensures end.Some? ==> at <= end.value < |b|
    decreases |b| - at
  {
    if at >= |b| then None
    else if b[at] != 0xFF then ScanEnd(b, at + 1)
    else if at + 1 >= |b| then None
    else if b[at + 1] == 0x00 || b[at + 1] == 0xFF || Restarts(b[at + 1]) then ScanEnd(b, at + 2)
    else Some(at)
  }

  /** Where the segment after the marker code at `at - 1` leads. */
  function PastSegment(b: Bytes, code: Byte, at: nat): (next: Option<nat>)
    ensures next.Some? ==> at <= next.value
  {
    if code == 0x01 || Restarts(code) then Some(at)
    else if Length(b, at).None? then None
    else if code == 0xDA then ScanEnd(b, at + Length(b, at).value)
    else Some(at + Length(b, at).value)
  }

  /** Where the segments from `at` on come to the end of an image, if they do. */
  function Ending(b: Bytes, at: nat): (end: Option<nat>)
    ensures end.Some? ==> at + 2 <= end.value <= |b| && b[end.value - 2] == 0xFF && b[end.value - 1] == 0xD9
    decreases |b| - at
  {
    var marker := SkipFill(b, at);
    if marker.None? || b[marker.value] != 0xFF then None else EndingFrom(b, marker.value)
  }

  /** The same from the 0xFF of a marker. */
  function EndingFrom(b: Bytes, m: nat): (end: Option<nat>)
    requires m + 1 < |b| && b[m] == 0xFF
    ensures end.Some? ==> m + 2 <= end.value <= |b| && b[end.value - 2] == 0xFF && b[end.value - 1] == 0xD9
    decreases |b| - m, 0
  {
    if b[m + 1] == 0xD9 then Some(m + 2)
    else
      var next := PastSegment(b, b[m + 1], m + 2);
      if next.None? || next.value >= |b| then None else Ending(b, next.value)
  }

  predicate Starts(b: Bytes, at: nat) {
    at + 3 < |b| && b[at] == 0xFF && b[at + 1] == 0xD8 && b[at + 2] == 0xFF
  }

  /** Where the image that starts at a position ends, if there is a complete one. */
  function ImageEnds(b: Bytes): (ends: nat -> Option<nat>)
    ensures Forward(|b|, ends)
  {
    p => if Starts(b, p) then Ending(b, p + 2) else None
  }

  ghost predicate Forward(n: nat, ends: nat -> Option<nat>) {
    forall p: nat :: ends(p).Some? ==> p < ends(p).value <= n
  }

  /** The greedy left-to-right carving of `n` bytes from `at` on. */
  function CarvedBy(n: nat, ends: nat -> Option<nat>, at: nat): seq<Range>
    requires Forward(n, ends)
    decreases n - at
  {
    if at >= n then []
    else if ends(at).Some? then [Range(at, ends(at).value)] + CarvedBy(n, ends, ends(at).value)
    else CarvedBy(n, ends, at + 1)
  }

  function Carved(b: Bytes, at: nat): seq<Range> {
    CarvedBy(|b|, ImageEnds(b), at)
  }

  // ---- the running code ----

  method FindScanEnd(b: Bytes, from: nat) returns (end: Option<nat>)
    ensures end == ScanEnd(b, from)
  {
    var at := from;
    while true
      invariant ScanEnd(b, at) == ScanEnd(b, from)
      decreases |b| - at
    {
      while at < |b| && b[at] != 0xFF
        invariant ScanEnd(b, at) == ScanEnd(b, from)
        decreases |b| - at
      {
        at := at + 1;
      }
      if at + 1 >= |b| {
        return None;
      }
      if b[at + 1] == 0x00 || b[at + 1] == 0xFF || Restarts(b[at + 1]) {
        at := at + 2;
      } else {
        return Some(at);
      }
    }
  }

  /** Computes the ending of the image whose first marker is at `from`. */
  method EndsAt(b: Bytes, from: nat) returns (end: Option<nat>)
    ensures end == Ending(b, from + 2)
  {
    var at := from + 2;
    while true
      invariant Ending(b, at) == Ending(b, from + 2)
      decreases |b| - at
    {
      ghost var start := at;
      while at + 1 < |b| && b[at] == 0xFF && b[at + 1] == 0xFF
        invariant start <= at && SkipFill(b, at) == SkipFill(b, start)
        decreases |b| - at
      {
        at := at + 1;
      }
      if at >= |b| || b[at] != 0xFF || at + 1 >= |b| {
        return None;
      }
      var marker := b[at + 1];
      at := at + 2;
      if marker == 0xD9 {
        return Some(at);
      }
      if marker != 0x01 && !Restarts(marker) {
        var length := Length(b, at);
        if length.None? {
          return None;
        }
        at := at + length.value;
        if marker == 0xDA {
          var scanned := FindScanEnd(b, at);
          if scanned.None? {
            return None;
          }
          ScanEndIsAMarker(b, at);
          at := scanned.value;
        }
      }
      if at >= |b| {
        return None;
      }
    }
  }

  /** Computes the carving of the bytes. */
  method FindJpegs(b: Bytes) returns (out: seq<Range>)
    ensures out == Carved(b, 0)
  {
    out := [];
    var at := 0;
    while at + 3 < |b|
      invariant out + Carved(b, at) == Carved(b, 0)
      decreases |b| - at
    {
      if b[at] == 0xFF && b[at + 1] == 0xD8 && b[at + 2] == 0xFF {
        var end := EndsAt(b, at);
        assert ImageEnds(b)(at) == end;
        if end.Some? {
          out := out + [Range(at, end.value)];
          at := end.value;
          continue;
        }
      }
      at := at + 1;
    }
    NothingNearTheEnd(b, at);
  }

  lemma {:induction false} NothingNearTheEnd(b: Bytes, at: nat)
    requires at + 3 >= |b|
    ensures Carved(b, at) == []
    decreases |b| - at
  {
    if at < |b| {
      assert ImageEnds(b)(at).None?;
      NothingNearTheEnd(b, at + 1);
    }
  }

  // ---- what is carved ----

  ghost predicate Covered(ranges: seq<Range>, p: nat) {
    exists i :: 0 <= i < |ranges| && ranges[i].from <= p < ranges[i].to
  }

  ghost predicate Apart(at: nat, ranges: seq<Range>) {
    && (forall i :: 0 <= i < |ranges| ==> at <= ranges[i].from < ranges[i].to)
    && (forall i, j :: 0 <= i < j < |ranges| ==> ranges[i].to <= ranges[j].from)
  }

  ghost predicate Complete(ends: nat -> Option<nat>, ranges: seq<Range>) {
    forall i :: 0 <= i < |ranges| ==> ends(ranges[i].from) == Some(ranges[i].to)
  }

  ghost predicate NoneMissed(ends: nat -> Option<nat>, at: nat, ranges: seq<Range>) {
    forall p: nat :: at <= p && ends(p).Some? ==> Covered(ranges, p)
  }

  /** Ranges in order and apart from each other, each from a start to the end it leads to, and no
      complete image starting outside them. */
  ghost predicate IsCarving(ends: nat -> Option<nat>, at: nat, ranges: seq<Range>) {
    Apart(at, ranges) && Complete(ends, ranges) && NoneMissed(ends, at, ranges)
  }

  lemma OneMoreMissesNone(ends: nat -> Option<nat>, at: nat, end: nat, rest: seq<Range>)
    requires at < end && NoneMissed(ends, end, rest)
    ensures NoneMissed(ends, at, [Range(at, end)] + rest)
  {
    var ranges := [Range(at, end)] + rest;
    forall p: nat | at <= p && ends(p).Some? ensures Covered(ranges, p) {
      if p < end {
        assert ranges[0].from <= p < ranges[0].to;
      } else {
        assert Covered(rest, p);
        var i :| 0 <= i < |rest| && rest[i].from <= p < rest[i].to;
        assert ranges[i + 1] == rest[i];
      }
    }
  }

  lemma OneMoreImage(ends: nat -> Option<nat>, at: nat, end: nat, rest: seq<Range>)
    requires ends(at) == Some(end) && at < end && IsCarving(ends, end, rest)
    ensures IsCarving(ends, at, [Range(at, end)] + rest)
  {
    OneMoreMissesNone(ends, at, end, rest);
    assert Apart(at, [Range(at, end)] + rest);
  }

  lemma NoImageHere(ends: nat -> Option<nat>, at: nat, ranges: seq<Range>)
    requires ends(at).None? && IsCarving(ends, at + 1, ranges)
    ensures IsCarving(ends, at, ranges)
  {
  }

  lemma {:induction false} CarvedIsACarving(n: nat, ends: nat -> Option<nat>, at: nat)
    requires Forward(n, ends)
    ensures IsCarving(ends, at, CarvedBy(n, ends, at))
    decreases n - at
  {
    if at >= n {
      assert CarvedBy(n, ends, at) == [];
    } else if ends(at).Some? {
      var rest := CarvedBy(n, ends, ends(at).value);
      CarvedIsACarving(n, ends, ends(at).value);
      OneMoreImage(ends, at, ends(at).value, rest);
      assert CarvedBy(n, ends, at) == [Range(at, ends(at).value)] + rest;
    } else {
      CarvedIsACarving(n, ends, at + 1);
      NoImageHere(ends, at, CarvedBy(n, ends, at + 1));
      assert CarvedBy(n, ends, at) == CarvedBy(n, ends, at + 1);
    }
  }

  /** A carving with an image at `at` has it first, and the rest is a carving after it. */
  lemma FirstOfCarving(ends: nat -> Option<nat>, at: nat, end: nat, ranges: seq<Range>)
    requires ends(at) == Some(end) && at < end && IsCarving(ends, at, ranges)
    ensures ranges != [] && ranges[0] == Range(at, end) && IsCarving(ends, end, ranges[1..])
  {
    assert Covered(ranges, at);
    var rest := ranges[1..];
    assert forall i :: 0 <= i < |rest| ==> rest[i] == ranges[i + 1];
    forall p: nat | end <= p && ends(p).Some? ensures Covered(rest, p) {
      assert Covered(ranges, p);
      var i :| 0 <= i < |ranges| && ranges[i].from <= p < ranges[i].to;
      assert rest[i - 1] == ranges[i];
    }
  }

  lemma NotHere(ends: nat -> Option<nat>, at: nat, ranges: seq<Range>)
    requires ends(at).None? && IsCarving(ends, at, ranges)
    ensures IsCarving(ends, at + 1, ranges)
  {
    assert forall i :: 0 <= i < |ranges| ==> ranges[i].from != at;
  }

  lemma NothingPastTheEnd(n: nat, ends: nat -> Option<nat>, at: nat, ranges: seq<Range>)
    requires Forward(n, ends) && IsCarving(ends, at, ranges) && at >= n
    ensures ranges == []
  {
    var first := if ranges == [] then at else ranges[0].from;
    assert ends(first).None?;
  }

  /** There is only one such list. */
  lemma {:induction false} CarvingsAreUnique(n: nat, ends: nat -> Option<nat>, at: nat, ranges: seq<Range>)
    requires Forward(n, ends) && IsCarving(ends, at, ranges)
    ensures ranges == CarvedBy(n, ends, at)
    decreases n - at
  {
    if at >= n {
      NothingPastTheEnd(n, ends, at, ranges);
    } else if ends(at).Some? {
      FirstOfCarving(ends, at, ends(at).value, ranges);
      CarvingsAreUnique(n, ends, ends(at).value, ranges[1..]);
      assert ranges == [ranges[0]] + ranges[1..];
    } else {
      NotHere(ends, at, ranges);
      CarvingsAreUnique(n, ends, at + 1, ranges);
    }
  }

  /** The carving found is the one list of ranges in order, apart, each a complete image, with no complete
      image starting outside them. */
  lemma FoundIsTheCarving(b: Bytes, ranges: seq<Range>)
    ensures IsCarving(ImageEnds(b), 0, ranges) <==> ranges == Carved(b, 0)
  {
    CarvedIsACarving(|b|, ImageEnds(b), 0);
    if IsCarving(ImageEnds(b), 0, ranges) {
      CarvingsAreUnique(|b|, ImageEnds(b), 0, ranges);
    }
  }

  /** What is carved lies within the bytes, from FF D8 FF to FF D9. */
  lemma CarvedRangesAreImages(b: Bytes, i: nat)
    requires i < |Carved(b, 0)|
    ensures var r := Carved(b, 0)[i];
            && r.from + 4 <= r.to <= |b|
            && b[r.from..r.from + 3] == [0xFF, 0xD8, 0xFF] && b[r.to - 2..r.to] == [0xFF, 0xD9]
  {
    CarvedIsACarving(|b|, ImageEnds(b), 0);
    var r := Carved(b, 0)[i];
    ImageEndsInBounds(b, r.from, r.to);
  }

  lemma ImageEndsInBounds(b: Bytes, from: nat, to: nat)
    requires ImageEnds(b)(from) == Some(to)
    ensures from + 4 <= to <= |b|
    ensures b[from..from + 3] == [0xFF, 0xD8, 0xFF] && b[to - 2..to] == [0xFF, 0xD9]
  {
  }

  // ---- where the image data ends ----

  /** A marker that ends image data: 0xFF and a code that is not stuffing, fill or a restart. */
  predicate Delimits(b: Bytes, m: nat) {
    m + 1 < |b| && b[m] == 0xFF && b[m + 1] != 0x00 && b[m + 1] != 0xFF && !(0xD0 <= b[m + 1] <= 0xD7)
  }

  /** How many 0xFF in a row end at `m`, counted from `at`. */
  function RunTo(b: Bytes, at: nat, m: nat): nat
    requires m < |b|
    decreases m
  {
    if m < at || b[m] != 0xFF then 0 else if m == 0 then 1 else 1 + RunTo(b, at, m - 1)
  }

  /** The data that starts at `at` ends at `m` by section B.1.1.2 of T.81: the first such marker, however
      much fill comes before it. */
  ghost predicate EndsDataAt(b: Bytes, at: nat, m: nat) {
    at <= m && Delimits(b, m) && forall k :: at <= k < m ==> !Delimits(b, k)
  }

  /** The first such marker with an even number of fill bytes before it. */
  ghost predicate FirstEvenlyFilled(b: Bytes, at: nat, m: nat) {
    && at <= m && Delimits(b, m) && RunTo(b, at, m) % 2 == 1
    && forall k :: at <= k < m && Delimits(b, k) ==> RunTo(b, at, k) % 2 == 0
  }

  lemma ScanEndIsAMarker(b: Bytes, at: nat)
    ensures ScanEnd(b, at).Some? ==> at <= ScanEnd(b, at).value && Delimits(b, ScanEnd(b, at).value)
    decreases |b| - at
  {
  }

  lemma {:induction false} RunFromLater(b: Bytes, at: nat, later: nat, m: nat)
    requires at <= later <= m < |b|
    requires later == at || b[later - 1] != 0xFF
             || (later == at + 2 && b[at] == b[at + 1] == 0xFF)
    ensures RunTo(b, later, m) % 2 == RunTo(b, at, m) % 2
    decreases m
  {
    if m > later && b[m] == 0xFF {
      RunFromLater(b, at, later, m - 1);
    } else if m == later && b[m] == 0xFF && later == at + 2 && b[at] == b[at + 1] == 0xFF {
      assert RunTo(b, at, at) == 1;
      assert RunTo(b, at, at + 1) == 2;
    }
  }

  /** The scan stops at the first marker with an even number of fill bytes before it. */
  lemma {:induction false} ScanFindsFirstEvenlyFilled(b: Bytes, at: nat)
    ensures match ScanEnd(b, at)
            case Some(m) => FirstEvenlyFilled(b, at, m)
            case None => forall k :: at <= k && Delimits(b, k) ==> RunTo(b, at, k) % 2 == 0
    decreases |b| - at
  {
    if at < |b| {
      if b[at] == 0xFF && at + 1 < |b| && (b[at + 1] == 0x00 || b[at + 1] == 0xFF || Restarts(b[at + 1])) {
        ScanFindsFirstEvenlyFilled(b, at + 2);
        assert !Delimits(b, at);
        forall k | at < k && Delimits(b, k) ensures
            if k == at + 1 then RunTo(b, at, k) == 2 else RunTo(b, at + 2, k) % 2 == RunTo(b, at, k) % 2 {
          if k == at + 1 {
            assert RunTo(b, at, at) == 1;
          } else {
            RunFromLater(b, at, at + 2, k);
          }
        }
      } else if b[at] != 0xFF {
        ScanFindsFirstEvenlyFilled(b, at + 1);
        forall k | at < k && Delimits(b, k) ensures RunTo(b, at + 1, k) % 2 == RunTo(b, at, k) % 2 {
          RunFromLater(b, at, at + 1, k);
        }
      } else if at + 1 < |b| {
        assert RunTo(b, at, at) == 1;
      }
    }
  }

  /** The scan ends the data where T.81 does exactly when the marker there has an even number of fill
      bytes before it. */
  lemma ScanEndsDataExactlyWhenEvenlyFilled(b: Bytes, at: nat, m: nat)
    requires EndsDataAt(b, at, m)
    ensures ScanEnd(b, at) == Some(m) <==> RunTo(b, at, m) % 2 == 1
  {
    ScanFindsFirstEvenlyFilled(b, at);
  }

  /** One fill byte before the end of an image is legal and makes the image go unnoticed. */
  lemma OneFillByteHidesAnImage()
    ensures var b: Bytes := [0xFF, 0xD8, 0xFF, 0xDA, 0x00, 0x02, 0xFF, 0xFF, 0xD9];
            EndsDataAt(b, 6, 7) && Structured(Standard, b, 2, 9) && Carved(b, 0) == []
  {
    var b: Bytes := [0xFF, 0xD8, 0xFF, 0xDA, 0x00, 0x02, 0xFF, 0xFF, 0xD9];
    assert SkipFill(b, 2) == Some(2);
    assert ScanEnd(b, 6) == None by {
      assert ScanEnd(b, 8) == None;
    }
    assert Ending(b, 2) == None;
    forall p: nat ensures ImageEnds(b)(p) == None {
      assert p > 0 && p + 3 < |b| ==> b[p] != 0xFF || b[p + 1] != 0xD8;
    }
    CarvingsAreUnique(|b|, ImageEnds(b), 0, []);
    assert Structured(Standard, b, 7, 9) by {
      assert FilledTo(b, 7, 7);
    }
    assert FilledTo(b, 2, 2) && EndsDataAt(b, 6, 7);
  }

  // ---- the structure of an image ----

  /** From `at`, fill bytes and then the 0xFF of the marker at `m`. */
  ghost predicate FilledTo(b: Bytes, at: nat, m: nat) {
    at <= m && m + 1 < |b| && b[m + 1] != 0xFF && forall k :: at <= k <= m ==> b[k] == 0xFF
  }

  /** What ends image data: the first marker, as the standard has it, or the first one evenly filled. */
  datatype Rule = Standard | EvenFill

  ghost predicate EndsDataBy(rule: Rule, b: Bytes, at: nat, m: nat) {
    if rule == Standard then EndsDataAt(b, at, m) else FirstEvenlyFilled(b, at, m)
  }

  /** From `at`, marker segments and image data that end an image at `end`. Any code but 0xFF is taken
      for a marker. */
  ghost predicate Structured(rule: Rule, b: Bytes, at: nat, end: nat)
    decreases |b| - at, 1
  {
    exists m :: FilledTo(b, at, m) && Continues(rule, b, m, end)
  }

  /** The number in two bytes, the greater first. */
  function Announced(b: Bytes, at: nat): nat
    requires at + 1 < |b|
  {
    var high: nat, low: nat := b[at], b[at + 1];
    high * 0x100 + low
  }

  ghost predicate Continues(rule: Rule, b: Bytes, m: nat, end: nat)
    requires m + 1 < |b|
    decreases |b| - m, 0
  {
    var code := b[m + 1];
    if code == 0xD9 then end == m + 2
    else if code == 0x01 || 0xD0 <= code <= 0xD7 then Structured(rule, b, m + 2, end)
    else if m + 3 >= |b| || Announced(b, m + 2) < 2 then false
    else
      var next := m + 2 + Announced(b, m + 2);
      if code == 0xDA then DataContinues(rule, b, next, end) else Structured(rule, b, next, end)
  }

  ghost predicate DataContinues(rule: Rule, b: Bytes, at: nat, end: nat)
    decreases |b| - at, 2
  {
    exists e :: EndsDataBy(rule, b, at, e) && Structured(rule, b, e, end)
  }

  /** Reading the structure from `at`, all image data ends at markers evenly filled. */
  ghost predicate EvenlyFilled(b: Bytes, at: nat)
    decreases |b| - at, 1
  {
    forall m :: FilledTo(b, at, m) ==> EvenlyFilledFrom(b, m)
  }

  ghost predicate EvenlyFilledFrom(b: Bytes, m: nat)
    requires m + 1 < |b|
    decreases |b| - m, 0
  {
    var code := b[m + 1];
    if code == 0xD9 then true
    else if code == 0x01 || 0xD0 <= code <= 0xD7 then EvenlyFilled(b, m + 2)
    else if m + 3 >= |b| || Announced(b, m + 2) < 2 then true
    else
      var next := m + 2 + Announced(b, m + 2);
      if code == 0xDA then DataEvenlyFilled(b, next) else EvenlyFilled(b, next)
  }

  ghost predicate DataEvenlyFilled(b: Bytes, at: nat)
    decreases |b| - at, 2
  {
    forall e :: EndsDataAt(b, at, e) ==> RunTo(b, at, e) % 2 == 1 && EvenlyFilled(b, e)
  }

  lemma {:induction false} SkipFillFinds(b: Bytes, at: nat)
    ensures match SkipFill(b, at)
            case Some(m) => m < |b| && at <= m && (b[m] == 0xFF ==> FilledTo(b, at, m)) && (b[m] != 0xFF ==> m == at)
            case None => forall m :: !FilledTo(b, at, m)
    decreases |b| - at
  {
    if at + 1 < |b| && b[at] == 0xFF && b[at + 1] == 0xFF {
      SkipFillFinds(b, at + 1);
      assert forall m :: FilledTo(b, at, m) ==> FilledTo(b, at + 1, m);
    }
  }

  lemma FillEndsOnce(b: Bytes, at: nat, m: nat, n: nat)
    requires FilledTo(b, at, m) && FilledTo(b, at, n)
    ensures m == n
  {
    assert forall k :: at <= k <= m ==> b[k] == 0xFF;
    assert n + 1 > m;
  }

  lemma DataEndsOnce(rule: Rule, b: Bytes, at: nat, m: nat, n: nat)
    requires EndsDataBy(rule, b, at, m) && EndsDataBy(rule, b, at, n)
    ensures m == n
  {
  }

  /** For all bytes: an image is found to end exactly where its structure ends, if data is taken to end at
      the first evenly filled marker. */
  lemma {:induction false} EndingIsStructure(b: Bytes, at: nat, end: nat)
    ensures Ending(b, at) == Some(end) <==> Structured(EvenFill, b, at, end)
    decreases |b| - at, 1
  {
    SkipFillFinds(b, at);
    var found := SkipFill(b, at);
    if found.Some? && b[found.value] == 0xFF {
      var m := found.value;
      forall n | FilledTo(b, at, n) ensures n == m {
        FillEndsOnce(b, at, m, n);
      }
      EndingFromIsStructure(b, m, end);
    }
  }

  lemma {:induction false} EndingFromIsStructure(b: Bytes, m: nat, end: nat)
    requires m + 1 < |b| && b[m] == 0xFF
    ensures EndingFrom(b, m) == Some(end) <==> Continues(EvenFill, b, m, end)
    decreases |b| - m, 0
  {
    var code := b[m + 1];
    if code == 0xD9 {
      assert Continues(EvenFill, b, m, end) <==> end == m + 2;
    } else if code == 0x01 || Restarts(code) {
      EndingIsStructure(b, m + 2, end);
    } else if Length(b, m + 2).Some? {
      var next := m + 2 + Length(b, m + 2).value;
      if code == 0xDA {
        DataIsStructure(b, next, end);
      } else {
        EndingIsStructure(b, next, end);
      }
    }
  }

  lemma {:induction false} DataIsStructure(b: Bytes, next: nat, end: nat)
    ensures ScanEnd(b, next).Some? && Ending(b, ScanEnd(b, next).value) == Some(end)
            <==> DataContinues(EvenFill, b, next, end)
    decreases |b| - next, 2
  {
    ScanFindsFirstEvenlyFilled(b, next);
    if ScanEnd(b, next).Some? {
      var e := ScanEnd(b, next).value;
      assert EndsDataBy(EvenFill, b, next, e);
      forall n | EndsDataBy(EvenFill, b, next, n) ensures n == e {
        DataEndsOnce(EvenFill, b, next, e, n);
      }
      EndingIsStructure(b, e, end);
    }
  }

  /** An image is carved from a position exactly if it starts there with FF D8 FF and its structure ends. */
  lemma ImagesAreStructures(b: Bytes, at: nat, end: nat)
    ensures ImageEnds(b)(at) == Some(end) <==>
            at + 3 < |b| && b[at..at + 3] == [0xFF, 0xD8, 0xFF] && Structured(EvenFill, b, at + 2, end)
  {
    EndingIsStructure(b, at + 2, end);
  }

  /** Without odd fill on the way, the standard reads the same structure. */
  lemma {:induction false} RulesAgree(b: Bytes, at: nat, end: nat)
    requires EvenlyFilled(b, at)
    ensures Structured(Standard, b, at, end) <==> Structured(EvenFill, b, at, end)
    decreases |b| - at, 1
  {
    forall m | FilledTo(b, at, m) ensures Continues(Standard, b, m, end) <==> Continues(EvenFill, b, m, end) {
      RulesAgreeFrom(b, m, end);
    }
  }

  lemma {:induction false} RulesAgreeFrom(b: Bytes, m: nat, end: nat)
    requires m + 1 < |b| && EvenlyFilledFrom(b, m)
    ensures Continues(Standard, b, m, end) <==> Continues(EvenFill, b, m, end)
    decreases |b| - m, 0
  {
    var code := b[m + 1];
    if code == 0xD9 {
      assert Continues(Standard, b, m, end) <==> end == m + 2;
    } else if code == 0x01 || Restarts(code) {
      RulesAgree(b, m + 2, end);
    } else if Length(b, m + 2).Some? {
      var next := m + 2 + Length(b, m + 2).value;
      if code == 0xDA {
        RulesAgreeOnData(b, next, end);
      } else {
        RulesAgree(b, next, end);
      }
    }
  }

  lemma {:induction false} RulesAgreeOnData(b: Bytes, at: nat, end: nat)
    requires DataEvenlyFilled(b, at)
    ensures DataContinues(Standard, b, at, end) <==> DataContinues(EvenFill, b, at, end)
    decreases |b| - at, 2
  {
    var first := FirstDelimiter(b, at);
    if first.Some? {
      var e := first.value;
      assert EndsDataBy(Standard, b, at, e) && EndsDataBy(EvenFill, b, at, e);
      forall rule, n | EndsDataBy(rule, b, at, n) ensures n == e {
        DataEndsOnce(rule, b, at, e, n);
      }
      RulesAgree(b, e, end);
    }
  }

  /** So an image of which no data ends oddly filled is found, and ends where the standard ends it. */
  lemma EvenlyFilledImagesAreFound(b: Bytes, at: nat, end: nat)
    requires EvenlyFilled(b, at)
    ensures Ending(b, at) == Some(end) <==> Structured(Standard, b, at, end)
  {
    RulesAgree(b, at, end);
    EndingIsStructure(b, at, end);
  }

  /** Where T.81 ends the data that starts at `at`, if it does. */
  function FirstDelimiter(b: Bytes, at: nat): (m: Option<nat>)
    ensures m.Some? ==> EndsDataAt(b, at, m.value)
    ensures m.None? ==> forall k :: at <= k ==> !Delimits(b, k)
    decreases |b| - at
  {
    if at >= |b| then None else if Delimits(b, at) then Some(at) else FirstDelimiter(b, at + 1)
  }
}
