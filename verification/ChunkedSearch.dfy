/** fileContainsBytes: a substring search that reads a file in chunks and carries an overlap between them. */
module ChunkedSearch {
  import opened Common

  predicate OccursAt(file: seq<byte>, needle: seq<byte>, i: int) {
    0 <= i && i + |needle| <= |file| && file[i..i + |needle|] == needle
  }

  /** Naive search. */
  predicate Occurs(file: seq<byte>, needle: seq<byte>) {
    exists i | 0 <= i <= |file| :: OccursAt(file, needle, i)
  }

  function Min(a: nat, b: nat): nat { if a < b then a else b }

  /** Occurrences inside a window are occurrences of the file, shifted. */
  lemma {:induction false} WindowShift(file: seq<byte>, needle: seq<byte>, from: nat, to: nat, i: int)
    requires from <= to <= |file|
    ensures OccursAt(file[from..to], needle, i)
            <==> 0 <= i && from + i + |needle| <= to && OccursAt(file, needle, from + i)
  {
    if 0 <= i && from + i + |needle| <= to {
      var inner, outer := file[from..to][i..i + |needle|], file[from + i..from + i + |needle|];
      assert |inner| == |outer| && forall k | 0 <= k < |inner| :: inner[k] == outer[k];
    }
  }

  /** No occurrence ends at or before `position`. */
  predicate NoneBefore(file: seq<byte>, needle: seq<byte>, position: nat) {
    forall i | 0 <= i <= |file| && OccursAt(file, needle, i) :: i + |needle| > position
  }

  /** A window that reaches |needle| - 1 bytes back decides every occurrence that ends inside it. */
  lemma {:induction false} WindowDecides(file: seq<byte>, needle: seq<byte>, position: nat, overlap: nat, next: nat)
    requires needle != [] && position <= next <= |file| && overlap == Min(|needle| - 1, position)
    requires NoneBefore(file, needle, position)
    ensures Occurs(file[position - overlap..next], needle) ==> Occurs(file, needle)
    ensures !Occurs(file[position - overlap..next], needle) ==> NoneBefore(file, needle, next)
  {
    var from := position - overlap;
    var window := file[from..next];
    if Occurs(window, needle) {
      var i :| 0 <= i <= |window| && OccursAt(window, needle, i);
      WindowShift(file, needle, from, next, i);
      assert OccursAt(file, needle, from + i);
    } else {
      forall i | 0 <= i <= |file| && OccursAt(file, needle, i)
        ensures i + |needle| > next
      {
        WindowShift(file, needle, from, next, i - from);
      }
    }
  }

  lemma {:induction false} NoneAtEnds(file: seq<byte>, needle: seq<byte>)
    requires needle != []
    ensures NoneBefore(file, needle, 0)
    ensures NoneBefore(file, needle, |file|) ==> !Occurs(file, needle)
  {
  }

  /** Moving on from a searched window keeps the last |needle| - 1 bytes. */
  lemma {:induction false} CarriedBytes(file: seq<byte>, window: seq<byte>, position: nat, overlap: nat, read: nat,
                                        keep: nat)
    requires overlap <= position && position + read <= |file| && window == file[position - overlap..position + read]
    requires keep <= overlap + read
    ensures window[overlap + read - keep..] == file[position + read - keep..position + read]
  {
  }

  /** readSync into the buffer after the carried bytes. */
  method ReadInto(buffer: array<byte>, offset: nat, file: seq<byte>, position: nat, count: nat)
    requires offset + count <= buffer.Length && position + count <= |file|
    modifies buffer
    ensures buffer[..offset + count] == old(buffer[..offset]) + file[position..position + count]
  {
    forall k | 0 <= k < count { buffer[offset + k] := file[position + k]; }
  }

  /** buffer.copy(buffer, 0, from, to): the last bytes move to the front. */
  method CarryOver(buffer: array<byte>, from: nat, to: nat)
    requires from <= to <= buffer.Length
    modifies buffer
    ensures buffer[..to - from] == old(buffer[from..to])
  {
    forall k | 0 <= k < to - from { buffer[k] := buffer[from + k]; }
  }

  /** One turn of the loop: read after the carried bytes, search, and carry the tail over. */
  method SearchChunk(buffer: array<byte>, file: seq<byte>, needle: seq<byte>, position: nat, overlap: nat, read: nat)
    returns (hit: bool, keep: nat)
    requires needle != [] && overlap == Min(|needle| - 1, position) && position + read <= |file|
    requires overlap + read <= buffer.Length && buffer[..overlap] == file[position - overlap..position]
    modifies buffer
    ensures hit <==> Occurs(file[position - overlap..position + read], needle)
    ensures keep == Min(|needle| - 1, position + read) && keep <= buffer.Length
    ensures !hit ==> buffer[..keep] == file[position + read - keep..position + read]
  {
    hide Occurs;
    ReadInto(buffer, overlap, file, position, read);
    var total := overlap + read;
    ghost var window := file[position - overlap..position + read];
    assert file[position - overlap..position] + file[position..position + read] == window;
    assert buffer[..total] == window;
    keep := Min(|needle| - 1, total);
    hit := Occurs(buffer[..total], needle);
    if !hit {
      CarriedBytes(file, window, position, overlap, read, keep);
      assert buffer[total - keep..total] == window[total - keep..];
      CarryOver(buffer, total - keep, total);
    }
  }

  /**
   * `delivers(k)` is what the k-th read would deliver if chunk and file allowed; 0 means the read returned nothing.
   * When every read delivers at least one byte the answer is the naive one. An empty needle is never found: the
   * buffer is then one byte too small for a chunk, the read throws, and the failure counts as "not contained".
   */
  method FileContainsBytes(file: seq<byte>, needle: seq<byte>, delivers: nat -> nat, chunkBytes: nat)
      returns (found: bool)
    requires chunkBytes > 0
    ensures found ==> needle != [] && Occurs(file, needle)
    ensures needle != [] && (forall k :: delivers(k) > 0) ==> (found <==> Occurs(file, needle))
  {
    if |file| < |needle| { return false; }
    if needle == [] { return false; }
    hide OccursAt, Occurs, NoneBefore;
    NoneAtEnds(file, needle);
    var buffer := new byte[chunkBytes + |needle| - 1](_ => 0);
    var overlap, position, k := 0, 0, 0;
    while position < |file|
      invariant position <= |file| && overlap == Min(|needle| - 1, position)
      invariant buffer[..overlap] == file[position - overlap..position]
      invariant NoneBefore(file, needle, position)
      decreases |file| - position
    {
      var read := Min(delivers(k), Min(chunkBytes, |file| - position));
      if read == 0 { return false; }
      WindowDecides(file, needle, position, overlap, position + read);
      var hit, keep := SearchChunk(buffer, file, needle, position, overlap, read);
      if hit { return true; }
      overlap, position, k := keep, position + read, k + 1;
    }
    return false;
  }
}
