/** The per-device index of mount points: one entry for each device, the shortest path. */
module MountIndex {
  datatype MountPoint = MountPoint(
    deviceMajor: bv32, deviceMinor: bv32, mountPoint: string, device: string, fsType: string)

  const LOOP_DEVICE: bv32 := 7
  const RAM_DEVICE: bv32 := 1

  const SKIPPED_PREFIXES := ["/dev", "/mnt/docker", "/mnt/jenkins", "/mnt/kubelet", "/proc", "/run", "/sys",
                             "/tmp/buildkit", "/var/lib"]

  /** A const MountPoint*, as a position in the input. */
  datatype Pointer = Null | At(index: nat)

  predicate Eligible(mp: MountPoint) {
    && mp.deviceMajor != LOOP_DEVICE && mp.deviceMajor != RAM_DEVICE
    && forall i :: 0 <= i < |SKIPPED_PREFIXES| ==> !(SKIPPED_PREFIXES[i] <= mp.mountPoint)
  }

  /** Neither a loop nor a RAM device, and mounted under none of these. */
  lemma EligibleByName(mp: MountPoint)
    ensures Eligible(mp)
            <==> mp.deviceMajor != 7 && mp.deviceMajor != 1
                 && !("/dev" <= mp.mountPoint) && !("/mnt/docker" <= mp.mountPoint)
                 && !("/mnt/jenkins" <= mp.mountPoint) && !("/mnt/kubelet" <= mp.mountPoint)
                 && !("/proc" <= mp.mountPoint) && !("/run" <= mp.mountPoint) && !("/sys" <= mp.mountPoint)
                 && !("/tmp/buildkit" <= mp.mountPoint) && !("/var/lib" <= mp.mountPoint)
  {
    var skipped := SKIPPED_PREFIXES;
    assert skipped[0] == "/dev" && skipped[1] == "/mnt/docker" && skipped[2] == "/mnt/jenkins";
    assert skipped[3] == "/mnt/kubelet" && skipped[4] == "/proc" && skipped[5] == "/run" && skipped[6] == "/sys";
    assert skipped[7] == "/tmp/buildkit" && skipped[8] == "/var/lib" && |skipped| == 9;
  }

  predicate SameDevice(a: MountPoint, b: MountPoint) {
    a.deviceMajor == b.deviceMajor && a.deviceMinor == b.deviceMinor
  }

  /** static_cast<uint64_t>(major) << 32u | minor */
  function PackedKey(major: bv32, minor: bv32): bv64 {
    ((major as bv64) << 32) | (minor as bv64)
  }

  /** The packed key is injective on pairs of 32-bit numbers. */
  lemma PackedKeyInjective(a: bv32, b: bv32, c: bv32, d: bv32)
    requires PackedKey(a, b) == PackedKey(c, d)
    ensures a == c && b == d
  {
  }

  /** A key of the candidate map. */
  datatype Key = Key(bits: bv64)

  function KeyOf(mp: MountPoint): Key {
    Key(PackedKey(mp.deviceMajor, mp.deviceMinor))
  }

  lemma KeyIsDevice(a: MountPoint, b: MountPoint)
    ensures KeyOf(a) == KeyOf(b) <==> SameDevice(a, b)
  {
  }

  /** Mount w wins its device among the first n: eligible, no eligible one is shorter, and none of the
      same length comes before it. */
  ghost predicate Wins(mps: seq<MountPoint>, n: nat, w: nat) {
    && w < n <= |mps| && Eligible(mps[w])
    && forall j :: 0 <= j < n && Eligible(mps[j]) && SameDevice(mps[j], mps[w]) ==>
        && |mps[w].mountPoint| <= |mps[j].mountPoint|
        && (|mps[w].mountPoint| == |mps[j].mountPoint| ==> w <= j)
  }

  ghost predicate IsWinner(mps: seq<MountPoint>, mp: MountPoint) {
    exists w: nat :: Wins(mps, |mps|, w) && mp == mps[w]
  }

  predicate Holds(entries: seq<MountPoint>, k: Key) {
    exists a :: 0 <= a < |entries| && KeyOf(entries[a]) == k
  }

  /** The candidate map after the first n mounts: never null, always the winner. */
  ghost predicate Indexed(mps: seq<MountPoint>, n: nat, candidates: map<Key, Pointer>)
    requires n <= |mps|
  {
    && (forall k :: k in candidates ==>
        && candidates[k].At? && candidates[k].index < n
        && Wins(mps, n, candidates[k].index) && KeyOf(mps[candidates[k].index]) == k)
    && forall j :: 0 <= j < n && Eligible(mps[j]) ==> KeyOf(mps[j]) in candidates
  }

  /** What one more mount does to the candidate of its device (or a null pointer). */
  function Choose(mps: seq<MountPoint>, candidate: Pointer, i: nat): Pointer
    requires i < |mps| && (candidate.At? ==> candidate.index < |mps|)
  {
    if candidate.Null? || |mps[i].mountPoint| < |mps[candidate.index].mountPoint| then At(i) else candidate
  }

  /** operator[] on the map: a null pointer for a key not yet there. */
  function CandidateOf(candidates: map<Key, Pointer>, k: Key): Pointer {
    if k in candidates then candidates[k] else Null
  }

  lemma IneligibleKeepsIndex(mps: seq<MountPoint>, i: nat, candidates: map<Key, Pointer>)
    requires i < |mps| && Indexed(mps, i, candidates) && !Eligible(mps[i])
    ensures Indexed(mps, i + 1, candidates)
  {
    hide Eligible, KeyOf, SameDevice;
  }

  lemma OthersStillWin(mps: seq<MountPoint>, i: nat, w: nat)
    requires i < |mps| && Wins(mps, i, w) && !SameDevice(mps[i], mps[w])
    ensures Wins(mps, i + 1, w)
  {
  }

  lemma ChosenWins(mps: seq<MountPoint>, i: nat, candidate: Pointer)
    requires i < |mps| && Eligible(mps[i])
    requires candidate.At? ==> Wins(mps, i, candidate.index) && SameDevice(mps[candidate.index], mps[i])
    requires candidate.Null? ==> forall j :: 0 <= j < i && Eligible(mps[j]) ==> !SameDevice(mps[j], mps[i])
    ensures Wins(mps, i + 1, Choose(mps, candidate, i).index)
  {
    hide Eligible;
  }

  lemma ChosenKey(mps: seq<MountPoint>, i: nat, candidate: Pointer)
    requires i < |mps|
    requires candidate.At? ==> candidate.index < i && KeyOf(mps[candidate.index]) == KeyOf(mps[i])
    ensures var next := Choose(mps, candidate, i);
            next.At? && next.index < i + 1 && KeyOf(mps[next.index]) == KeyOf(mps[i])
  {
    hide KeyOf;
  }

  lemma EligibleUpdatesIndex(mps: seq<MountPoint>, i: nat, candidates: map<Key, Pointer>)
    requires i < |mps| && Indexed(mps, i, candidates) && Eligible(mps[i])
    ensures Indexed(mps, i + 1, candidates[KeyOf(mps[i]) := Choose(mps, CandidateOf(candidates, KeyOf(mps[i])), i)])
  {
    var k := KeyOf(mps[i]);
    var candidate := CandidateOf(candidates, k);
    assert candidate.At? ==> Wins(mps, i, candidate.index);
    hide Eligible, KeyOf, SameDevice, Wins, Choose;
    if candidate.At? {
      KeyIsDevice(mps[candidate.index], mps[i]);
    }
    forall j | 0 <= j < i && Eligible(mps[j]) ensures candidate.Null? ==> !SameDevice(mps[j], mps[i]) {
      KeyIsDevice(mps[j], mps[i]);
    }
    ChosenWins(mps, i, candidate);
    ChosenKey(mps, i, candidate);
    forall k' | k' in candidates && k' != k ensures Wins(mps, i + 1, candidates[k'].index) {
      KeyIsDevice(mps[i], mps[candidates[k'].index]);
      OthersStillWin(mps, i, candidates[k'].index);
    }
  }

  method FilterInterestingMountPoints(mountPoints: seq<MountPoint>) returns (interesting: seq<MountPoint>)
    // every entry is the winner of its device, and no device has two entries
    ensures forall a :: 0 <= a < |interesting| ==> IsWinner(mountPoints, interesting[a])
    ensures forall a, b :: 0 <= a < b < |interesting| ==> !SameDevice(interesting[a], interesting[b])
    // every device with an eligible mount has an entry
    ensures forall j :: 0 <= j < |mountPoints| && Eligible(mountPoints[j]) ==>
        exists a :: 0 <= a < |interesting| && SameDevice(interesting[a], mountPoints[j])
  {
    hide Eligible, KeyOf, SameDevice, Wins;
    var candidates: map<Key, Pointer> := map[];
    for i := 0 to |mountPoints|
      invariant Indexed(mountPoints, i, candidates)
    {
      var mp := mountPoints[i];
      if !Eligible(mp) {
        IneligibleKeepsIndex(mountPoints, i, candidates);
        continue;
      }
      EligibleUpdatesIndex(mountPoints, i, candidates);
      var key := KeyOf(mp);
      ghost var next := candidates[key := Choose(mountPoints, CandidateOf(candidates, key), i)];
      if key !in candidates {
        candidates := candidates[key := Null];
      }
      var candidate := candidates[key];
      if candidate.At? {
        if |mp.mountPoint| < |mountPoints[candidate.index].mountPoint| {
          candidates := candidates[key := At(i)];
        }
      } else {
        candidates := candidates[key := At(i)];
      }
      assert candidates == next;
    }
    interesting := Emit(mountPoints, candidates);
    assert forall j :: 0 <= j < |mountPoints| && Eligible(mountPoints[j]) ==> Holds(interesting, KeyOf(mountPoints[j]));
    forall j | 0 <= j < |mountPoints| && Eligible(mountPoints[j])
      ensures exists a :: 0 <= a < |interesting| && SameDevice(interesting[a], mountPoints[j])
    {
      var a :| 0 <= a < |interesting| && KeyOf(interesting[a]) == KeyOf(mountPoints[j]);
      KeyIsDevice(interesting[a], mountPoints[j]);
    }
    forall a, b | 0 <= a < b < |interesting| ensures !SameDevice(interesting[a], interesting[b]) {
      KeyIsDevice(interesting[a], interesting[b]);
    }
  }

  lemma WinnerIsWinner(mps: seq<MountPoint>, w: nat)
    requires Wins(mps, |mps|, w)
    ensures IsWinner(mps, mps[w])
  {
  }

  lemma HoldsMore(entries: seq<MountPoint>, mp: MountPoint)
    ensures forall k :: Holds(entries + [mp], k) <==> Holds(entries, k) || KeyOf(mp) == k
  {
    hide KeyOf;
    forall k ensures Holds(entries + [mp], k) <==> Holds(entries, k) || KeyOf(mp) == k {
      if Holds(entries, k) {
        var a :| 0 <= a < |entries| && KeyOf(entries[a]) == k;
        assert (entries + [mp])[a] == entries[a];
      }
      assert (entries + [mp])[|entries|] == mp;
    }
  }

  /** The second loop: the candidates in any order, each pointer dereferenced. */
  method Emit(mps: seq<MountPoint>, candidates: map<Key, Pointer>) returns (interesting: seq<MountPoint>)
    requires Indexed(mps, |mps|, candidates)
    ensures forall a :: 0 <= a < |interesting| ==> IsWinner(mps, interesting[a])
    ensures forall a, b :: 0 <= a < b < |interesting| ==> KeyOf(interesting[a]) != KeyOf(interesting[b])
    ensures forall k :: k in candidates ==> Holds(interesting, k)
  {
    hide Eligible, KeyOf, SameDevice, Wins, IsWinner, Holds;
    interesting := [];
    var todo := candidates.Keys;
    while todo != {}
      invariant todo <= candidates.Keys
      invariant forall a :: 0 <= a < |interesting| ==> IsWinner(mps, interesting[a])
      invariant forall a, b :: 0 <= a < b < |interesting| ==> KeyOf(interesting[a]) != KeyOf(interesting[b])
      invariant forall a :: 0 <= a < |interesting| ==>
          KeyOf(interesting[a]) in candidates && KeyOf(interesting[a]) !in todo
      invariant forall k :: k in candidates && k !in todo ==> Holds(interesting, k)
    {
      var k :| k in todo;
      WinnerIsWinner(mps, candidates[k].index);
      HoldsMore(interesting, mps[candidates[k].index]);
      interesting := interesting + [mps[candidates[k].index]];
      todo := todo - {k};
    }
  }

  /** Exactly one mount wins each device: the entries are determined up to their order. */
  lemma WinnerIsUnique(mps: seq<MountPoint>, v: nat, w: nat)
    requires Wins(mps, |mps|, v) && Wins(mps, |mps|, w) && SameDevice(mps[v], mps[w])
    ensures v == w
  {
  }

  lemma {:induction false} EveryDeviceHasAWinner(mps: seq<MountPoint>, n: nat, j: nat) returns (w: nat)
    requires j < n <= |mps| && Eligible(mps[j])
    ensures Wins(mps, n, w) && SameDevice(mps[w], mps[j])
  {
    hide Eligible;
    if j < n - 1 {
      var v := EveryDeviceHasAWinner(mps, n - 1, j);
      w := if Eligible(mps[n - 1]) && SameDevice(mps[n - 1], mps[v]) && |mps[n - 1].mountPoint| < |mps[v].mountPoint|
           then n - 1 else v;
    } else {
      if i :| 0 <= i < n - 1 && Eligible(mps[i]) && SameDevice(mps[i], mps[j]) {
        var v := EveryDeviceHasAWinner(mps, n - 1, i);
        w := if |mps[j].mountPoint| < |mps[v].mountPoint| then j else v;
      } else {
        w := j;
      }
    }
  }
}
