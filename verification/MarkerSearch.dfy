/** The backward, chunked search for the last occurrence of a marker in a file. */
module MarkerSearch {
  import opened Options

  newtype Byte = b: int | 0 <= b < 256

  predicate OccursAt(data: seq<Byte>, marker: seq<Byte>, i: int) {
    0 <= i && i + |marker| <= |data| && data[i..i + |marker|] == marker
  }

  /** `r` is the offset of the last occurrence of `marker`, or None when there is none. */
  ghost predicate IsLast(data: seq<Byte>, marker: seq<Byte>, r: Option<nat>) {
    match r
    case Some(i) => OccursAt(data, marker, i) && forall k :: k > i ==> !OccursAt(data, marker, k)
    case None => forall k :: !OccursAt(data, marker, k)
  }

  /** `bytes.rfind`, searching from the end. */
  function RFind(data: seq<Byte>, marker: seq<Byte>): Option<nat> {
    if |marker| > |data| then None else RFindFrom(data, marker, |data| - |marker|)
  }

  function RFindFrom(data: seq<Byte>, marker: seq<Byte>, i: nat): (r: Option<nat>) {
    if OccursAt(data, marker, i) then Some(i)
    else if i == 0 then None
    else RFindFrom(data, marker, i - 1)
  }

  lemma {:induction false} RFindFromIsLast(data: seq<Byte>, marker: seq<Byte>, i: nat)
    requires forall k :: k > i ==> !OccursAt(data, marker, k)
    ensures IsLast(data, marker, RFindFrom(data, marker, i))
  {
    if !OccursAt(data, marker, i) && i > 0 { RFindFromIsLast(data, marker, i - 1); }
  }

  lemma RFindIsLast(data: seq<Byte>, marker: seq<Byte>)
    ensures IsLast(data, marker, RFind(data, marker))
  {
    if |marker| <= |data| { RFindFromIsLast(data, marker, |data| - |marker|); }
  }

  lemma LastIsUnique(data: seq<Byte>, marker: seq<Byte>, r1: Option<nat>, r2: Option<nat>)
    requires IsLast(data, marker, r1) && IsLast(data, marker, r2)
    ensures r1 == r2
  {
    if r1.Some? && r2.Some? { assert r1.value <= r2.value && r2.value <= r1.value; }
  }

  lemma SliceOfSlice<T>(s: seq<T>, from: nat, to: nat, a: nat, b: nat)
    requires from <= to <= |s| && a <= b <= to - from
    ensures s[from..to][a..b] == s[from + a..from + b]
  {
    forall j | 0 <= j < b - a ensures s[from..to][a..b][j] == s[from + a..from + b][j] { }
  }

  /** A window of the file sees exactly the file's occurrences that fit into it. */
  lemma WindowOccurrence(file: seq<Byte>, marker: seq<Byte>, from: nat, to: nat, k: int)
    requires from <= to <= |file|
    ensures OccursAt(file[from..to], marker, k)
         <==> 0 <= k && from + k + |marker| <= to && OccursAt(file, marker, from + k)
  {
    if 0 <= k && from + k + |marker| <= to {
      SliceOfSlice(file, from, to, k, k + |marker|);
      assert from + (k + |marker|) == from + k + |marker|;
    }
  }

  function Min(a: int, b: int): int { if a < b then a else b }

  function OverlapSize(marker: seq<Byte>): nat { if |marker| == 0 then 0 else |marker| - 1 }

  /** One chunk is read in front of what was searched already. */
  lemma ChunkStep(file: seq<Byte>, marker: seq<Byte>, position: nat, next: nat, data: seq<Byte>)
    requires next < position <= |file|
    requires data == file[next..Min(|file|, position + OverlapSize(marker))]
    requires (position == |file| && marker == []) || forall k :: k >= position ==> !OccursAt(file, marker, k)
    ensures match RFind(data, marker)
            case Some(i) => IsLast(file, marker, Some(next + i))
            case None => forall k :: k >= next ==> !OccursAt(file, marker, k)
  {
    var to := Min(|file|, position + OverlapSize(marker));
    RFindIsLast(data, marker);
    forall k
      ensures OccursAt(data, marker, k) <==> 0 <= k && next + k + |marker| <= to && OccursAt(file, marker, next + k)
    {
      WindowOccurrence(file, marker, next, to, k);
    }
    var found := RFind(data, marker);
    forall k | k >= next && (found.Some? ==> k > next + found.value) ensures !OccursAt(file, marker, k) {
      if k < position || marker == [] {
        assert !OccursAt(data, marker, k - next);
      }
    }
  }

  /** For every file, marker and positive chunk size the search finds the last occurrence in the whole
      file; only the empty marker in the empty file is missed. */
  method FindLastMarkerOffset(file: seq<Byte>, marker: seq<Byte>, chunkSize: nat) returns (r: Option<nat>)
    requires chunkSize >= 1
    ensures IsLast(file, marker, r) <==> (file != [] || marker != [])
    ensures file == [] ==> r == None
  {
    var overlap: seq<Byte> := [];
    var position := |file|;
    while position > 0
      invariant 0 <= position <= |file|
      invariant overlap == file[position..Min(|file|, position + OverlapSize(marker))]
      invariant (position == |file| && marker == []) || forall k :: k >= position ==> !OccursAt(file, marker, k)
      decreases position
    {
      var readSize := Min(chunkSize, position);
      ghost var before := position;
      position := position - readSize;
      var data := file[position..position + readSize] + overlap;
      assert data == file[position..Min(|file|, before + OverlapSize(marker))];
      ChunkStep(file, marker, before, position, data);
      match RFind(data, marker) {
        case Some(index) => return Some(position + index);
        case None =>
      }
      overlap := data[..Min(|data|, OverlapSize(marker))];
    }
    r := None;
    assert file == [] && marker == [] ==> OccursAt(file, marker, 0);
  }
}
