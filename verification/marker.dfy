/** The marker search across reads in the capture driver's reader loop (internal/capture/driver.go). */
module MarkerSearch {
  import opened Common

  predicate OccursAt(s: seq<byte>, m: seq<byte>, i: int) {
    0 <= i <= |s| - |m| && s[i..i + |m|] == m
  }

  ghost predicate Occurs(s: seq<byte>, m: seq<byte>) {
    exists i :: OccursAt(s, m, i)
  }

  function MarkerOverlap(m: seq<byte>): nat {
    if |m| == 0 then 0 else |m| - 1
  }

  lemma OccursBehind(u: seq<byte>, w: seq<byte>, m: seq<byte>, i: nat)
    ensures OccursAt(u + w, m, |u| + i) <==> OccursAt(w, m, i)
  {
    if i + |m| <= |w| {
      assert (u + w)[|u| + i..|u| + i + |m|] == w[i..i + |m|];
    }
  }

  lemma OccursBefore(u: seq<byte>, w: seq<byte>, m: seq<byte>, i: nat)
    requires i + |m| <= |u|
    ensures OccursAt(u + w, m, i) <==> OccursAt(u, m, i)
  {
    assert (u + w)[i..i + |m|] == u[i..i + |m|];
  }

  /** A new occurrence after an append lies within the appended bytes and |m| - 1 bytes before them. */
  lemma OverlapSuffices(s: seq<byte>, b: seq<byte>, m: seq<byte>)
    requires |m| > 0
    ensures Occurs(s + b, m) <==> Occurs(s, m) || Occurs(Tail(s, MarkerOverlap(m)) + b, m)
  {
    hide OccursAt;
    var t := Tail(s, MarkerOverlap(m));
    var u := s[..|s| - |t|];
    assert s + b == u + (t + b);
    OccursInBounds(m);
    if Occurs(s + b, m) {
      var i :| OccursAt(s + b, m, i);
      if i + |m| <= |s| {
        OccursBefore(s, b, m, i);
      } else {
        OccursBehind(u, t + b, m, i - |u|);
      }
    }
    if Occurs(s, m) {
      var i :| OccursAt(s, m, i);
      OccursBefore(s, b, m, i);
    }
    if Occurs(t + b, m) {
      var i :| OccursAt(t + b, m, i);
      OccursBehind(u, t + b, m, i);
    }
  }

  lemma OccursInBounds(m: seq<byte>)
    ensures forall s, i :: OccursAt(s, m, i) ==> 0 <= i <= |s| - |m|
  {
  }

  /** Any shorter overlap misses a marker cut just before its last byte. */
  lemma ShorterOverlapMisses(m: seq<byte>, keep: nat)
    requires keep < MarkerOverlap(m)
    ensures var s, b := m[..|m| - 1], m[|m| - 1..];
            Occurs(s + b, m) && !Occurs(s, m) && !Occurs(Tail(s, keep) + b, m)
  {
    var s, b := m[..|m| - 1], m[|m| - 1..];
    assert s + b == m;
    assert OccursAt(s + b, m, 0);
  }

  /** The part of the loop that looks at one read, and the reader's state between reads. */
  class MarkerReader {
    const marker: seq<byte>
    var overlap: seq<byte>
    var markerHit: bool

    constructor (marker: seq<byte>)
      ensures Saw([]) && this.marker == marker
    {
      this.marker, overlap, markerHit := marker, [], false;
    }

    /** The state after reading `seen` in all. */
    ghost predicate Saw(seen: seq<byte>)
      reads this
    {
      && (markerHit <==> marker != [] && Occurs(seen, marker))
      && (marker != [] && !markerHit ==> overlap == Tail(seen, MarkerOverlap(marker)))
    }

    method OnRead(buf: seq<byte>, ghost seen: seq<byte>)
      requires Saw(seen)
      modifies this
      ensures Saw(seen + buf)
    {
      if |marker| > 0 {
        OverlapSuffices(seen, buf, marker);
      }
      if |marker| > 0 && !markerHit {
        var scan := overlap + buf;
        var found := Index(scan, marker);
        if found {
          markerHit := true;
        }
        var keep := MarkerOverlap(marker);
        if |scan| > keep {
          scan := scan[|scan| - keep..];
        }
        overlap := scan;
        TailOfTail(seen, buf, keep);
      }
    }

    /** A whole run of reads: the marker is found exactly when it occurs in all that was read. */
    method ReadAll(chunks: seq<seq<byte>>)
      requires Saw([])
      modifies this
      ensures markerHit <==> marker != [] && Occurs(Concat(chunks), marker)
      ensures marker != [] && !markerHit ==> overlap == Tail(Concat(chunks), MarkerOverlap(marker))
    {
      for i := 0 to |chunks|
        invariant Saw(Concat(chunks[..i]))
      {
        assert chunks[..i + 1][..i] == chunks[..i];
        if |chunks[i]| > 0 {
          OnRead(chunks[i], Concat(chunks[..i]));
        } else {
          assert Concat(chunks[..i]) + chunks[i] == Concat(chunks[..i]);
        }
      }
      assert chunks[..|chunks|] == chunks;
    }
  }

  method Index(s: seq<byte>, m: seq<byte>) returns (found: bool)
    ensures found <==> Occurs(s, m)
  {
    for i := 0 to |s| + 1
      invariant forall j :: 0 <= j < i ==> !OccursAt(s, m, j)
    {
      if i + |m| <= |s| && s[i..i + |m|] == m {
        assert OccursAt(s, m, i);
        return true;
      }
    }
    return false;
  }
}
