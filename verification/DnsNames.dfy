/** Domain names on the wire: following labels and compression pointers, and writing names crafted from text. */
module DnsNames {
  import opened Bytes
  import opened HeaderFields
  import opened PacketBuffer

  const GUARD: nat := 256

  /** The resolved dotted text (as octets) and the exact octets at the name's own position. */
  datatype Name = Name(value: seq<byte>, raw: seq<byte>)

  /** What following a name yields: its labels and the offset just past its own octets. */
  datatype Followed = Followed(labels: seq<seq<byte>>, next: nat)

  /** Octet `o`, or zero past the end. */
  function Octet(p: seq<byte>, o: nat): byte
  {
    if o < |p| then p[o] else 0
  }

  function Pointer(p: seq<byte>, o: nat): nat
  {
    Octet(p, o) % 64 * 256 + Octet(p, o + 1)
  }

  /** The read loop: it ends at a root label, at an offset seen before, or when the fuel is spent. */
  function Follow(p: seq<byte>, o: nat, visited: set<nat>, fuel: nat, physicalEnd: Option<nat>): Followed
    decreases fuel
  {
    if fuel == 0 || o in visited then Followed([], EndOr(physicalEnd, o))
    else
      var len: nat := Octet(p, o);
      if len == 0 then Followed([], EndOr(physicalEnd, o + 1))
      else if len >= 192 then Follow(p, Pointer(p, o), visited + {o}, fuel - 1, Some(EndOr(physicalEnd, o + 2)))
      else Under([Clamped(p, o + 1, len)], Follow(p, o + 1 + len, visited + {o}, fuel - 1, physicalEnd))
  }

  function EndOr(physicalEnd: Option<nat>, end: nat): nat
  {
    if physicalEnd.Some? then physicalEnd.value else end
  }

  function Under(labels: seq<seq<byte>>, rest: Followed): Followed
  {
    Followed(labels + rest.labels, rest.next)
  }

  function NameAt(p: seq<byte>, offset: nat): Followed
  {
    Follow(p, offset, {}, GUARD, None)
  }

  const DOT: byte := 46

  function Join(labels: seq<seq<byte>>): seq<byte>
  {
    if labels == [] then [] else if |labels| == 1 then labels[0] else labels[0] + [DOT] + Join(labels[1..])
  }

  function ReadName(p: seq<byte>, offset: nat): Name
  {
    var f := NameAt(p, offset);
    Name(Join(f.labels), if f.next > offset then Clamped(p, offset, f.next - offset) else [])
  }

  lemma {:induction false} FollowEnds(p: seq<byte>, o: nat, visited: set<nat>, fuel: nat, physicalEnd: Option<nat>)
    ensures var next := Follow(p, o, visited, fuel, physicalEnd).next;
      if physicalEnd.Some? then next == physicalEnd.value else next >= o && (fuel > 0 && o !in visited ==> next > o)
    decreases fuel
  {
    if fuel > 0 && o !in visited {
      var len: nat := Octet(p, o);
      if len >= 192 {
        FollowEnds(p, Pointer(p, o), visited + {o}, fuel - 1, Some(EndOr(physicalEnd, o + 2)));
      } else if len > 0 {
        FollowEnds(p, o + 1 + len, visited + {o}, fuel - 1, physicalEnd);
      }
    }
  }

  // ---- the method ----

  /** `labels.join('.')`. */
  method JoinLabels(labels: seq<seq<byte>>) returns (value: seq<byte>)
    ensures value == Join(labels)
  {
    if labels == [] { return []; }
    var i := |labels| - 1;
    value := labels[i];
    while i > 0
      invariant 0 <= i < |labels| && value == Join(labels[i..])
    {
      assert labels[i - 1..][1..] == labels[i..];
      i := i - 1;
      value := labels[i] + [DOT] + value;
    }
    assert labels[0..] == labels;
  }

  method FollowName(b: PacketBuffer, ghost visible: seq<byte>, ghost payload: seq<byte>, offset: nat)
    returns (labels: seq<seq<byte>>, next: nat)
    requires Reading(b, visible, payload) && b.startPos + |payload| == |visible|
    modifies b
    ensures Reading(b, visible, payload) && b.startPos == old(b.startPos) && b.packet == old(b.packet)
    ensures b.headerLength == old(b.headerLength)
    ensures Followed(labels, next) == NameAt(payload, offset) && next > offset
  {
    hide Reading, Follow, Under;
    labels := [];
    var visited: set<nat> := {};
    var o: nat, physicalEnd: Option<nat>, guard: nat := offset, None, 0;
    FollowEnds(payload, offset, {}, GUARD, None);
    UnderNothing(NameAt(payload, offset));
    ghost var whole := NameAt(payload, offset);
    var done := false;
    while !done && guard < 256
      invariant Reading(b, visible, payload) && b.startPos == old(b.startPos) && b.packet == old(b.packet)
      invariant b.headerLength == old(b.headerLength) && guard <= 256
      invariant done ==> whole == Followed(labels, EndOr(physicalEnd, o))
      invariant !done ==> whole == Under(labels, Follow(payload, o, visited, 256 - guard, physicalEnd))
    {
      guard := guard + 1;
      FollowStep(payload, o, visited, 256 - guard, physicalEnd, labels);
      if o in visited {
        done := true;
      } else {
        visited := visited + {o};
        var first := TakeAt(b, visible, payload, o, 1, true);
        var len: nat := if |first| > 0 then first[0] else 0;
        OctetRead(payload, o);
        if len == 0 {
          physicalEnd := Some(EndOr(physicalEnd, o + 1));
          done := true;
        } else if len >= 192 {
          var second := TakeAt(b, visible, payload, o + 1, 1, true);
          OctetRead(payload, o + 1);
          var low: nat := if |second| > 0 then second[0] else 0;
          physicalEnd := Some(EndOr(physicalEnd, o + 2));
          o := len % 64 * 256 + low;
        } else {
          var text := TakeAt(b, visible, payload, o + 1, len, true);
          labels := labels + [text];
          o := o + 1 + len;
        }
      }
    }
    if !done { FollowSpent(payload, o, visited, physicalEnd, labels); }
    next := EndOr(physicalEnd, o);
  }

  lemma UnderNothing(f: Followed)
    ensures Under([], f) == f
  {
    AppendNil(f.labels);
  }

  lemma OctetRead(p: seq<byte>, o: nat)
    ensures |Clamped(p, o, 1)| > 0 <==> o < |p|
    ensures o < |p| ==> Clamped(p, o, 1)[0] == Octet(p, o)
  {
  }

  lemma FollowSpent(p: seq<byte>, o: nat, visited: set<nat>, physicalEnd: Option<nat>, labels: seq<seq<byte>>)
    ensures Under(labels, Follow(p, o, visited, 0, physicalEnd)) == Followed(labels, EndOr(physicalEnd, o))
  {
    AppendNil(labels);
  }

  /** One round of the loop. */
  lemma FollowStep(p: seq<byte>, o: nat, visited: set<nat>, fuel: nat, physicalEnd: Option<nat>, labels: seq<seq<byte>>)
    ensures var now := Under(labels, Follow(p, o, visited, fuel + 1, physicalEnd));
      var len: nat := Octet(p, o);
      if o in visited then now == Followed(labels, EndOr(physicalEnd, o))
      else if len == 0 then now == Followed(labels, EndOr(physicalEnd, o + 1))
      else if len >= 192 then
        now == Under(labels, Follow(p, Pointer(p, o), visited + {o}, fuel, Some(EndOr(physicalEnd, o + 2))))
      else
        now == Under(labels + [Clamped(p, o + 1, len)], Follow(p, o + 1 + len, visited + {o}, fuel, physicalEnd))
  {
    var len: nat := Octet(p, o);
    AppendNil(labels);
    if o !in visited && 0 < len < 192 {
      AppendAssociates(labels, [Clamped(p, o + 1, len)],
                       Follow(p, o + 1 + len, visited + {o}, fuel, physicalEnd).labels);
    }
  }

  // ---- the names of RFC 1035, section 4.1.4 ----

  /**
   * The octets at `o` spell `labels`, reaching the root label after visiting `n` offsets: a sequence of labels of
   * at most 63 octets ending in the root label or in a pointer to such a sequence.
   */
  ghost predicate Spells(p: seq<byte>, o: nat, labels: seq<seq<byte>>, n: nat)
    decreases n
  {
    n > 0 && o < |p| &&
    var len: nat := p[o];
    if len == 0 then labels == [] && n == 1
    else if len >= 192 then o + 2 <= |p| && Spells(p, (len - 192) * 256 + p[o + 1], labels, n - 1)
    else
      len <= 63 && o + 1 + len <= |p| && labels != [] && labels[0] == p[o + 1..o + 1 + len]
      && Spells(p, o + 1 + len, labels[1..], n - 1)
  }

  /** Where the name's own octets end: past its root label, or past the pointer that ends them. */
  ghost function Extent(p: seq<byte>, o: nat, n: nat): nat
    decreases n
  {
    var len: nat := Octet(p, o);
    if len == 0 || n == 0 then o + 1 else if len >= 192 then o + 2 else Extent(p, o + 1 + len, n - 1)
  }

  lemma {:induction false} SpellsUnique(p: seq<byte>, o: nat, l: seq<seq<byte>>, n: nat, l': seq<seq<byte>>, n': nat)
    requires Spells(p, o, l, n) && Spells(p, o, l', n')
    ensures l == l' && n == n'
    decreases n
  {
    var len: nat := p[o];
    if len >= 192 {
      SpellsUnique(p, Pointer(p, o), l, n - 1, l', n' - 1);
    } else if len > 0 {
      SpellsUnique(p, o + 1 + len, l[1..], n - 1, l'[1..], n' - 1);
      assert l == [l[0]] + l[1..] && l' == [l'[0]] + l'[1..];
    }
  }

  /** Every visited offset is further from the root label than `n`. */
  ghost predicate Behind(p: seq<byte>, visited: set<nat>, n: nat)
  {
    forall v :: v in visited ==> exists l, m: nat :: m > n && Spells(p, v, l, m)
  }

  lemma NotVisited(p: seq<byte>, o: nat, labels: seq<seq<byte>>, n: nat, visited: set<nat>)
    requires Spells(p, o, labels, n) && Behind(p, visited, n)
    ensures o !in visited && n > 0 && Behind(p, visited + {o}, n - 1)
  {
    if o in visited {
      var l, m: nat :| m > n && Spells(p, o, l, m);
      SpellsUnique(p, o, labels, n, l, m);
    }
    forall v | v in visited + {o} ensures exists l, m: nat :: m > n - 1 && Spells(p, v, l, m) {
      if v in visited {
        var l, m: nat :| m > n && Spells(p, v, l, m);
      }
    }
  }

  lemma {:induction false} FollowSpells(p: seq<byte>, o: nat, labels: seq<seq<byte>>, n: nat,
                                        visited: set<nat>, fuel: nat, physicalEnd: Option<nat>)
    requires Spells(p, o, labels, n) && Behind(p, visited, n)
    ensures var f := Follow(p, o, visited, fuel, physicalEnd);
      f.labels <= labels && (n <= fuel ==> f == Followed(labels, EndOr(physicalEnd, Extent(p, o, n))))
    decreases n
  {
    hide Behind, Clamped, EndOr, Pointer;
    if fuel > 0 {
      NotVisited(p, o, labels, n, visited);
      var len: nat := p[o];
      if len >= 192 {
        PointerIs(p, o);
        FollowSpells(p, Pointer(p, o), labels, n - 1, visited + {o}, fuel - 1, Some(EndOr(physicalEnd, o + 2)));
        EndTaken(EndOr(physicalEnd, o + 2), Extent(p, Pointer(p, o), n - 1));
      } else if len > 0 {
        FollowSpells(p, o + 1 + len, labels[1..], n - 1, visited + {o}, fuel - 1, physicalEnd);
        assert labels == [labels[0]] + labels[1..];
        ClampedWithin(p, o + 1, len);
      }
    }
  }

  lemma PointerIs(p: seq<byte>, o: nat)
    requires o + 2 <= |p| && p[o] >= 192
    ensures var len: nat := p[o]; Pointer(p, o) == (len - 192) * 256 + p[o + 1]
  {
  }

  lemma EndTaken(end: nat, other: nat)
    ensures EndOr(Some(end), other) == end
  {
  }

  lemma ClampedWithin(p: seq<byte>, o: nat, len: nat)
    requires o + len <= |p|
    ensures Clamped(p, o, len) == p[o..o + len]
  {
  }

  /**
   * A name as the standard spells it is read as its labels and its own extent whenever it visits at most 256 offsets;
   * a longer one yields a prefix of its labels.
   */
  lemma NameIsStandard(p: seq<byte>, o: nat, labels: seq<seq<byte>>, n: nat)
    requires Spells(p, o, labels, n)
    ensures NameAt(p, o).labels <= labels
    ensures n <= 256 ==> NameAt(p, o) == Followed(labels, Extent(p, o, n))
  {
    FollowSpells(p, o, labels, n, {}, GUARD, None);
  }
}
