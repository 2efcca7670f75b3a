// The chunked scan of a release artifact for forbidden markers.
module ReleaseScan {
  import opened Prelude

  type Bytes = seq<byte>

  predicate StandsAt(s: Bytes, m: Bytes, p: int) {
    0 <= p && p + |m| <= |s| && s[p..p + |m|] == m
  }

  predicate Contains(s: Bytes, m: Bytes) { exists p :: 0 <= p <= |s| && StandsAt(s, m, p) }

  predicate ContainsAny(s: Bytes, markers: seq<Bytes>) {
    exists k :: 0 <= k < |markers| && Contains(s, markers[k])
  }

  // All reads of a stream, one after the other.
  function Joined(parts: seq<Bytes>): Bytes {
    if parts == [] then [] else Joined(parts[..|parts| - 1]) + parts[|parts| - 1]
  }

  function Longest(markers: seq<Bytes>): (n: nat)
    requires markers != []
    ensures forall k :: 0 <= k < |markers| ==> |markers[k]| <= n
    ensures exists k :: 0 <= k < |markers| && |markers[k]| == n
  {
    var last := |markers[|markers| - 1]|;
    if |markers| == 1 then last
    else
      var front := markers[..|markers| - 1];
      var n := Longest(front);
      assert exists k :: 0 <= k < |front| && |front[k]| == n;
      assert forall k :: 0 <= k < |front| ==> front[k] == markers[k];
      if last <= n then n else last
  }

  // Python's s[-n:]: the last n bytes, everything when there are fewer, and everything for n = 0.
  function Kept(s: Bytes, n: nat): Bytes {
    if n == 0 || |s| <= n then s else s[|s| - n..]
  }

  lemma KeptAgain(s: Bytes, chunk: Bytes, n: nat)
    ensures Kept(Kept(s, n) + chunk, n) == Kept(s + chunk, n)
  {
  }

  lemma ContainsInMore(s: Bytes, m: Bytes, before: Bytes, after: Bytes)
    requires Contains(s, m)
    ensures Contains(before + s + after, m)
  {
    var p :| 0 <= p <= |s| && StandsAt(s, m, p);
    var whole := before + s + after;
    assert whole[|before| + p..|before| + p + |m|] == s[p..p + |m|];
    assert StandsAt(whole, m, |before| + p);
  }

  // A marker no longer than the overlap allows, absent from what was seen, is in the extended text
  // exactly when it is in the window.
  lemma WindowSuffices(seen: Bytes, chunk: Bytes, m: Bytes, n: nat)
    requires 0 < |m| <= n + 1 && !Contains(seen, m)
    ensures Contains(Kept(seen, n) + chunk, m) <==> Contains(seen + chunk, m)
  {
    var window := Kept(seen, n) + chunk;
    var skipped := |seen| - |Kept(seen, n)|;
    assert seen + chunk == seen[..skipped] + window + [];
    if Contains(window, m) {
      ContainsInMore(window, m, seen[..skipped], []);
    }
    if Contains(seen + chunk, m) {
      var p :| 0 <= p <= |seen + chunk| && StandsAt(seen + chunk, m, p);
      if p + |m| <= |seen| {
        assert seen[p..p + |m|] == (seen + chunk)[p..p + |m|];
        assert StandsAt(seen, m, p);
        assert false;
      } else {
        assert p >= skipped;
        assert window[p - skipped..p - skipped + |m|] == (seen + chunk)[p..p + |m|];
        assert StandsAt(window, m, p - skipped);
      }
    }
  }

  // The scan reports a marker exactly when one is a contiguous part of the whole payload, however the
  // payload is split into reads; with a marker of two bytes or more it never holds more than one read and
  // the longest marker less one byte, and with one-byte markers only no more than the payload.
  method ScanStream(markers: seq<Bytes>, parts: seq<Bytes>, chunkSize: nat) returns (fails: bool, peak: nat)
    requires markers != [] && forall k :: 0 <= k < |markers| ==> markers[k] != []
    requires forall i :: 0 <= i < |parts| ==> 0 < |parts[i]| <= chunkSize
    ensures fails <==> ContainsAny(Joined(parts), markers)
    ensures peak <= if Longest(markers) >= 2 then chunkSize + Longest(markers) - 1 else |Joined(parts)|
  {
    var overlap: Bytes := [];
    var overlapSize := Longest(markers) - 1;
    peak := 0;
    assert !ContainsAny([], markers);
    for i := 0 to |parts|
      invariant overlap == Kept(Joined(parts[..i]), overlapSize)
      invariant !ContainsAny(Joined(parts[..i]), markers)
      invariant peak <= if Longest(markers) >= 2 then chunkSize + Longest(markers) - 1 else |Joined(parts)|
    {
      ghost var seen := Joined(parts[..i]);
      var window := overlap + parts[i];
      assert parts[..i + 1][..i] == parts[..i];
      JoinedGrows(parts, i + 1);
      peak := if |window| > peak then |window| else peak;
      forall k | 0 <= k < |markers| ensures Contains(window, markers[k]) <==> Contains(seen + parts[i], markers[k]) {
        assert !Contains(seen, markers[k]);
        WindowSuffices(seen, parts[i], markers[k], overlapSize);
      }
      if ContainsAny(window, markers) {
        var k :| 0 <= k < |markers| && Contains(window, markers[k]);
        FoundEarly(parts, i + 1, markers[k]);
        return true, peak;
      }
      KeptAgain(seen, parts[i], overlapSize);
      overlap := Kept(window, overlapSize);
    }
    assert parts[..|parts|] == parts;
    return false, peak;
  }

  lemma {:induction false} JoinedGrows(parts: seq<Bytes>, i: nat)
    requires i <= |parts|
    ensures |Joined(parts[..i])| <= |Joined(parts)|
    decreases |parts| - i
  {
    if i == |parts| {
      assert parts[..i] == parts;
    } else {
      assert parts[..i + 1][..i] == parts[..i];
      JoinedGrows(parts, i + 1);
    }
  }

  lemma {:induction false} FoundEarly(parts: seq<Bytes>, i: nat, m: Bytes)
    requires i <= |parts| && Contains(Joined(parts[..i]), m)
    ensures Contains(Joined(parts), m)
    decreases |parts| - i
  {
    if i == |parts| {
      assert parts[..i] == parts;
    } else {
      assert parts[..i + 1][..i] == parts[..i];
      ContainsInMore(Joined(parts[..i]), m, [], parts[i]);
      assert [] + Joined(parts[..i]) + parts[i] == Joined(parts[..i]) + parts[i];
      FoundEarly(parts, i + 1, m);
    }
  }
}
