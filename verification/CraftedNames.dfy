/** Names written from dotted text, and when they read back. */
module CraftedNames {
  import opened Bytes
  import opened DnsNames
  import opened HeaderFields
  import opened PacketBuffer

  function FirstDot(v: seq<byte>): (i: nat)
    ensures i <= |v| && (i < |v| ==> v[i] == DOT) && forall k :: 0 <= k < i ==> v[k] != DOT
  {
    if v == [] || v[0] == DOT then 0 else 1 + FirstDot(v[1..])
  }

  /** `value.split('.')`. */
  function Split(v: seq<byte>): (labels: seq<seq<byte>>)
    ensures labels != []
    decreases |v|
  {
    var i := FirstDot(v);
    if i == |v| then [v] else [v[..i]] + Split(v[i + 1..])
  }

  function LabelBytes(l: seq<byte>): seq<byte>
  {
    [|l| % 256] + l
  }

  function LabelsBytes(labels: seq<seq<byte>>): seq<byte>
  {
    if labels == [] then [] else LabelBytes(labels[0]) + LabelsBytes(labels[1..])
  }

  /** An uncompressed encoding of dotted text. */
  function ValueBytes(v: seq<byte>): seq<byte>
  {
    if v == [] then [0] else LabelsBytes(Split(v)) + [0]
  }

  /** The exact octets of a decoded name, else an encoding of its text. */
  function NameBytes(name: Name): (r: seq<byte>)
    ensures |r| > 0
  {
    if name.raw != [] then name.raw else ValueBytes(name.value)
  }

  method WriteName(b: PacketBuffer, ghost before: seq<byte>, ghost written: seq<byte>, start: nat, name: Name)
    returns (o: nat)
    requires Writing(b, before, written) && start == |written|
    modifies b, b.packet
    ensures Writing(b, before, written + NameBytes(name)) && (b.packet == old(b.packet) || fresh(b.packet))
    ensures o == |written + NameBytes(name)|
  {
    hide Writing, LabelsBytes;
    if name.raw != [] {
      Append(b, before, written, start, name.raw);
      return start + |name.raw|;
    }
    o := start;
    ghost var sofar: seq<byte> := [];
    AppendNil(written);
    if |name.value| > 0 {
      var labels, i := Split(name.value), 0;
      NoLabels();
      while i < |labels|
        invariant i <= |labels| && sofar == LabelsBytes(labels[..i])
        invariant Writing(b, before, written + sofar) && o == |written + sofar|
        invariant b.packet == old(b.packet) || fresh(b.packet)
      {
        var l := labels[i];
        var length: seq<byte> := [|l| % 256];
        LabelsStep(labels, i);
        AppendAssociates(written, sofar, LabelBytes(l));
        AppendAssociates(written + sofar, length, l);
        Append(b, before, written + sofar, o, length);
        Append(b, before, written + sofar + length, o + 1, l);
        sofar := sofar + LabelBytes(l);
        o := o + 1 + |l|;
        i := i + 1;
      }
      assert labels[..i] == labels;
    }
    AppendAssociates(written, sofar, [0]);
    AppendNil([0 as byte]);
    Append(b, before, written + sofar, o, [0]);
    o := o + 1;
  }

  lemma NoLabels()
    ensures LabelsBytes([]) == []
  {
  }

  lemma LabelsStep(labels: seq<seq<byte>>, i: nat)
    requires i < |labels|
    ensures LabelsBytes(labels[..i + 1]) == LabelsBytes(labels[..i]) + LabelBytes(labels[i])
  {
    assert labels[..i + 1] == labels[..i] + [labels[i]];
    var last := [labels[i]];
    LabelsSplit(labels[..i], last);
    assert last[1..] == [] && LabelsBytes(last) == LabelBytes(labels[i]) + LabelsBytes(last[1..]);
    AppendNil(LabelBytes(labels[i]));
  }

  lemma {:induction false} LabelsSplit(a: seq<seq<byte>>, b: seq<seq<byte>>)
    ensures LabelsBytes(a + b) == LabelsBytes(a) + LabelsBytes(b)
    decreases |a|
  {
    if a == [] {
      AppendNil(b);
      AppendNil(LabelsBytes(b));
    } else {
      assert (a + b)[0] == a[0] && (a + b)[1..] == a[1..] + b;
      LabelsSplit(a[1..], b);
      AppendAssociates(LabelBytes(a[0]), LabelsBytes(a[1..]), LabelsBytes(b));
    }
  }

  // ---- octets at a place ----

  lemma AtOctet(p: seq<byte>, o: nat, x: byte)
    requires Sits(p, o, [x])
    ensures o < |p| && Octet(p, o) == x
  {
    assert p[o..o + 1][0] == x;
  }

  lemma AtClamped(p: seq<byte>, o: nat, w: seq<byte>)
    requires Sits(p, o, w)
    ensures Clamped(p, o, |w|) == w
  {
  }

  lemma AtLater(p: seq<byte>, lo: nat, o: nat, w: seq<byte>)
    requires lo <= |p| && Sits(p[lo..], o, w)
    ensures Sits(p, lo + o, w)
  {
    assert p[lo..] == p[lo..|p|];
    SliceOfSlice(p, lo, |p|, o, o + |w|);
  }

  // ---- splitting and joining ----

  lemma SplitStep(v: seq<byte>)
    ensures var i := FirstDot(v);
      if i == |v| then Split(v) == [v]
      else (Split(v) == [v[..i]] + Split(v[i + 1..]) && v == v[..i] + [DOT] + v[i + 1..])
  {
    hide FirstDot;
    if FirstDot(v) < |v| { CutAt(v, FirstDot(v)); }
  }

  lemma CutAt(v: seq<byte>, i: nat)
    requires i < |v|
    ensures v == v[..i] + [v[i]] + v[i + 1..]
  {
  }

  lemma JoinStep(first: seq<byte>, rest: seq<seq<byte>>)
    ensures Join([first] + rest) == if rest == [] then first else first + [DOT] + Join(rest)
  {
    assert ([first] + rest)[1..] == rest;
  }

  lemma {:induction false} JoinSplit(v: seq<byte>)
    ensures Join(Split(v)) == v
    decreases |v|
  {
    hide Split, Join, FirstDot;
    SplitStep(v);
    var i := FirstDot(v);
    if i < |v| {
      JoinSplit(v[i + 1..]);
      JoinStep(v[..i], Split(v[i + 1..]));
    } else {
      JoinStep(v, []);
      assert [v] + [] == [v];
    }
  }

  predicate Dotless(v: seq<byte>) { forall k :: 0 <= k < |v| ==> v[k] != DOT }

  /** Each label of the split is a dotless run of the text. */
  lemma {:induction false} LabelIsRun(v: seq<byte>, j: nat) returns (at: nat)
    requires j < |Split(v)|
    ensures Sits(v, at, Split(v)[j]) && Dotless(Split(v)[j])
    decreases |v|
  {
    hide Split, Sits, Dotless;
    SplitStep(v);
    FirstRun(v);
    var i := FirstDot(v);
    if i == |v| || j == 0 {
      at := 0;
    } else {
      var r := LabelIsRun(v[i + 1..], j - 1);
      at := i + 1 + r;
      AtLater(v, i + 1, r, Split(v)[j]);
    }
  }

  lemma FirstRun(v: seq<byte>)
    ensures Sits(v, 0, v[..FirstDot(v)]) && Dotless(v[..FirstDot(v)]) && v[..|v|] == v
  {
  }

  /** A dotless run of joined labels lies inside one of them. */
  lemma {:induction false} RunInsideLabel(labels: seq<seq<byte>>, at: nat, run: seq<byte>)
    requires (forall l :: l in labels ==> |l| <= 191) && Sits(Join(labels), at, run) && Dotless(run)
    ensures |run| <= 191
    decreases |labels|
  {
    if |labels| > 1 && |run| > 0 {
      var n, joined := |labels[0]|, Join(labels);
      assert joined[n] == DOT;
      assert forall k :: 0 <= k < |run| ==> joined[at + k] == run[k];
      if at > n {
        assert joined[n + 1..] == Join(labels[1..]);
        SliceOfSlice(joined, n + 1, |joined|, at - n - 1, at - n - 1 + |run|);
        RunInsideLabel(labels[1..], at - n - 1, run);
      }
    }
  }

  lemma {:induction false} JoinShorter(labels: seq<seq<byte>>, j: nat)
    requires 0 < j < |labels|
    ensures |Join(labels[..j])| < |Join(labels)|
    decreases |labels|
  {
    if j > 1 {
      JoinShorter(labels[1..], j - 1);
      assert labels[..j][1..] == labels[1..][..j - 1];
    }
  }

  // ---- reading a crafted name ----

  predicate Readable(l: seq<byte>) { 1 <= |l| <= 191 }

  predicate AllReadable(labels: seq<seq<byte>>) { forall l :: l in labels ==> Readable(l) }

  ghost predicate Below(visited: set<nat>, o: nat) { forall v :: v in visited ==> v < o }

  /** Reading passes over readable labels one by one. */
  lemma {:induction false} FollowLabels(p: seq<byte>, o: nat, labels: seq<seq<byte>>, visited: set<nat>, fuel: nat)
    returns (seen: set<nat>)
    requires Sits(p, o, LabelsBytes(labels)) && AllReadable(labels) && |labels| <= fuel && Below(visited, o)
    ensures Below(seen, o + |LabelsBytes(labels)|)
    ensures Follow(p, o, visited, fuel, None)
         == Under(labels, Follow(p, o + |LabelsBytes(labels)|, seen, fuel - |labels|, None))
    decreases |labels|
  {
    hide Sits, Follow, LabelBytes, Join, Clamped;
    if labels == [] {
      seen := visited;
      UnderNothing(Follow(p, o, visited, fuel, None));
    } else {
      var l := labels[0];
      assert l in labels && LabelsBytes(labels) == LabelBytes(l) + LabelsBytes(labels[1..]);
      LabelRead(p, o, l, LabelsBytes(labels[1..]));
      FollowStep(p, o, visited, fuel - 1, None, []);
      UnderNothing(Follow(p, o, visited, fuel, None));
      seen := FollowLabels(p, o + 1 + |l|, labels[1..], visited + {o}, fuel - 1);
      UnderBoth(l, labels[1..], Follow(p, o + |LabelsBytes(labels)|, seen, fuel - |labels|, None));
    }
  }

  lemma UnderBoth(l: seq<byte>, labels: seq<seq<byte>>, rest: Followed)
    ensures Under([] + [l], Under(labels, rest)) == Under([l] + labels, rest)
  {
    AppendAssociates([l], labels, rest.labels);
    AppendNil([l]);
  }

  lemma LabelRead(p: seq<byte>, o: nat, l: seq<byte>, rest: seq<byte>)
    requires Readable(l) && Sits(p, o, LabelBytes(l) + rest)
    ensures Octet(p, o) == |l| && Clamped(p, o + 1, |l|) == l && |LabelBytes(l)| == 1 + |l|
    ensures Sits(p, o + 1 + |l|, rest)
  {
    hide Sits, Octet, Clamped;
    SitsSplit(p, o, LabelBytes(l), rest);
    SitsSplit(p, o, [|l|], l);
    AtOctet(p, o, |l|);
    AtClamped(p, o + 1, l);
  }

  lemma {:induction false} LabelsAreShort(p: seq<byte>, o: nat, visited: set<nat>, fuel: nat, physicalEnd: Option<nat>)
    ensures forall l :: l in Follow(p, o, visited, fuel, physicalEnd).labels ==> |l| <= 191
    decreases fuel
  {
    if fuel > 0 && o !in visited {
      var len: nat := Octet(p, o);
      if len >= 192 {
        LabelsAreShort(p, Pointer(p, o), visited + {o}, fuel - 1, Some(EndOr(physicalEnd, o + 2)));
      } else if len > 0 {
        LabelsAreShort(p, o + 1 + len, visited + {o}, fuel - 1, physicalEnd);
      }
    }
  }

  /** Some label too long to be told from a pointer: the text cannot come back. */
  lemma LongLabelLost(p: seq<byte>, o: nat, v: seq<byte>, j: nat)
    requires j < |Split(v)| && |Split(v)[j]| > 191
    ensures Join(NameAt(p, o).labels) != v
  {
    LabelsAreShort(p, o, {}, GUARD, None);
    hide Follow, Split, Join, Sits, Dotless;
    var at := LabelIsRun(v, j);
    if Join(NameAt(p, o).labels) == v {
      RunInsideLabel(NameAt(p, o).labels, at, Split(v)[j]);
    }
  }

  /** Readable labels followed by a zero octet: all of them are read, up to the guard. */
  lemma ReadToZero(p: seq<byte>, o: nat, labels: seq<seq<byte>>, rest: seq<byte>)
    requires Sits(p, o, LabelsBytes(labels) + ([0] + rest)) && AllReadable(labels)
    ensures |labels| < GUARD ==> NameAt(p, o) == Followed(labels, o + |LabelsBytes(labels)| + 1)
    ensures |labels| >= GUARD ==>
      NameAt(p, o).labels == labels[..GUARD] && NameAt(p, o).next <= o + |LabelsBytes(labels)|
  {
    hide Sits, LabelsBytes, Follow;
    SitsSplit(p, o, LabelsBytes(labels), [0] + rest);
    if |labels| < GUARD {
      SitsSplit(p, o + |LabelsBytes(labels)|, [0], rest);
      AtOctet(p, o + |LabelsBytes(labels)|, 0);
      var seen := FollowLabels(p, o, labels, {}, GUARD);
      FollowStep(p, o + |LabelsBytes(labels)|, seen, GUARD - |labels| - 1, None, labels);
    } else {
      var first, others := labels[..GUARD], labels[GUARD..];
      assert labels == first + others;
      LabelsSplit(first, others);
      SitsSplit(p, o, LabelsBytes(first), LabelsBytes(others));
      var seen := FollowLabels(p, o, first, {}, GUARD);
      FollowSpent(p, o + |LabelsBytes(first)|, seen, None, first);
    }
  }

  function FirstEmpty(labels: seq<seq<byte>>): (k: nat)
    ensures k <= |labels| && (k < |labels| ==> labels[k] == []) && forall i :: 0 <= i < k ==> labels[i] != []
  {
    if labels == [] || labels[0] == [] then 0 else 1 + FirstEmpty(labels[1..])
  }

  /** The octets of text whose label `k` is empty, up to the zero that stands for it. */
  lemma EmptyLabelBytes(labels: seq<seq<byte>>, k: nat) returns (rest: seq<byte>)
    requires k < |labels| && labels[k] == []
    ensures LabelsBytes(labels) + [0] == LabelsBytes(labels[..k]) + ([0] + rest)
  {
    var tail := labels[k..];
    assert labels == labels[..k] + tail && LabelsBytes(tail) == LabelBytes([]) + LabelsBytes(tail[1..]);
    LabelsSplit(labels[..k], tail);
    rest := LabelsBytes(tail[1..]) + [0];
    hide LabelsBytes;
    var zero: seq<byte> := [0];
    assert LabelBytes([]) == zero;
    AppendAssociates(LabelsBytes(labels[..k]), zero + LabelsBytes(tail[1..]), zero);
    AppendAssociates(zero, LabelsBytes(tail[1..]), zero);
  }

  /** An empty label reads as the root and cuts the text short. */
  lemma EmptyLabelLost(p: seq<byte>, o: nat, v: seq<byte>)
    requires v != [] && FirstEmpty(Split(v)) < |Split(v)| && forall l :: l in Split(v) ==> |l| <= 191
    requires Sits(p, o, ValueBytes(v))
    ensures Join(NameAt(p, o).labels) != v
  {
    hide Sits, Split, Join, LabelsBytes, NameAt;
    var labels := Split(v);
    var k := FirstEmpty(labels);
    var rest := EmptyLabelBytes(labels, k);
    ReadToZero(p, o, labels[..k], rest);
    JoinSplit(v);
    JoinNone();
    if k >= GUARD { assert labels[..k][..GUARD] == labels[..GUARD]; }
    if k > 0 { JoinShorter(labels, if k < GUARD then k else GUARD); }
  }

  lemma JoinNone()
    ensures Join([]) == []
  {
  }

  /**
   * A crafted name comes back, text and extent, exactly when it is the root or its labels have 1 to 191 octets
   * and number at most 255.
   */
  lemma CraftedNameIff(p: seq<byte>, o: nat, v: seq<byte>)
    requires Sits(p, o, ValueBytes(v))
    ensures Join(NameAt(p, o).labels) == v && NameAt(p, o).next == o + |ValueBytes(v)|
       <==> v == [] || (|Split(v)| <= 255 && AllReadable(Split(v)))
  {
    hide Sits, Split, Join, LabelsBytes, NameAt, FirstEmpty;
    var labels := Split(v);
    JoinSplit(v);
    assert (forall j :: 0 <= j < |labels| ==> |labels[j]| <= 191) && FirstEmpty(labels) == |labels| ==>
        AllReadable(labels);
    if v == [] {
      NoLabels();
      JoinNone();
      assert [] + ([0] + []) == ValueBytes(v);
      ReadToZero(p, o, [], []);
    } else if AllReadable(labels) {
      assert LabelsBytes(labels) + ([0] + []) == ValueBytes(v);
      ReadToZero(p, o, labels, []);
    } else if exists j :: 0 <= j < |labels| && |labels[j]| > 191 {
      var j :| 0 <= j < |labels| && |labels[j]| > 191;
      LongLabelLost(p, o, v, j);
    } else {
      EmptyLabelLost(p, o, v);
    }
  }

  /** The text of a single dot has two empty labels, and reads back as the root. */
  lemma DotLost(p: seq<byte>, o: nat)
    requires Sits(p, o, ValueBytes([DOT]))
    ensures Join(NameAt(p, o).labels) != [DOT] || NameAt(p, o).next != o + |ValueBytes([DOT])|
  {
    hide Sits, ValueBytes, Join, NameAt;
    CraftedNameIff(p, o, [DOT]);
    var labels := Split([DOT]);
    assert FirstDot([DOT]) == 0;
    assert labels[0] == [] && labels[0] in labels && !Readable(labels[0]);
  }

  /** A label of 192 octets or more is written with a length that reads as a pointer. */
  lemma LongLabelsLost(p: seq<byte>, o: nat, v: seq<byte>)
    requires |v| >= 192 && Dotless(v) && Sits(p, o, ValueBytes(v))
    ensures Join(NameAt(p, o).labels) != v || NameAt(p, o).next != o + |ValueBytes(v)|
  {
    hide Sits, ValueBytes, Join, NameAt;
    CraftedNameIff(p, o, v);
    NoDotInside(v);
    assert Split(v)[0] == v && v in Split(v) && !Readable(v);
  }

  lemma NoDotInside(v: seq<byte>)
    requires Dotless(v)
    ensures FirstDot(v) == |v|
  {
  }

  /** Labels that run up to the end of the message end there, as if a zero followed. */
  lemma CutNameEnds(p: seq<byte>, o: nat, labels: seq<seq<byte>>)
    requires Sits(p, o, LabelsBytes(labels)) && o + |LabelsBytes(labels)| == |p|
    requires AllReadable(labels) && |labels| < 256
    ensures NameAt(p, o) == Followed(labels, |p| + 1)
  {
    hide Sits, LabelsBytes, Follow;
    var seen := FollowLabels(p, o, labels, {}, GUARD);
    FollowStep(p, |p|, seen, GUARD - |labels| - 1, None, labels);
    assert Octet(p, |p|) == 0;
  }
}
