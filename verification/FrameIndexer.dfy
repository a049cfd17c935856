/** Decoded frames into index rows, with the two dictionaries the numeric columns refer to. */
module FrameIndexer {
  import opened Bytes
  import opened ColumnarStore
  import opened Conversation
  import opened DisplayFilter

  type Hash32 = h: nat | h < 0x1_0000_0000

  /** A decoded frame with its capture metadata. */
  datatype Captured = Captured(layers: seq<Layer>, fileOffset: int, capturedLength: int, originalLength: int,
                               timestamp: real)

  function HashOf(hash: string -> Hash32, layers: seq<Layer>): Hash32
  {
    if KeyOf(layers).Some? then hash(KeyOf(layers).value) else 0
  }

  /** Which key each hash is taken for: the first one stored wins. */
  function KeysSeen(hash: string -> Hash32, frames: seq<Captured>): map<Hash32, string>
  {
    if frames == [] then map[]
    else
      var before, key := KeysSeen(hash, frames[..|frames| - 1]), KeyOf(frames[|frames| - 1].layers);
      if key.Some? && hash(key.value) !in before then before[hash(key.value) := key.value] else before
  }

  function Lookup(keys: map<Hash32, string>, h: int): Option<string>
  {
    if 0 <= h < 0x1_0000_0000 && h in keys then Some(keys[h]) else None
  }

  /** A frame's key is found again from its hash column. */
  predicate Recovered(hash: string -> Hash32, frames: seq<Captured>, i: nat)
    requires i < |frames|
  {
    Lookup(KeysSeen(hash, frames), HashOf(hash, frames[i].layers)) == KeyOf(frames[i].layers)
  }

  /** Among the frames seen, the hash column tells the keys apart, frames without a key included. */
  ghost predicate Separated(hash: string -> Hash32, frames: seq<Captured>)
  {
    forall i, j ::
      0 <= i < |frames| && 0 <= j < |frames| && HashOf(hash, frames[i].layers) == HashOf(hash, frames[j].layers)
      ==> KeyOf(frames[i].layers) == KeyOf(frames[j].layers)
  }

  /** Some frame has this key and this hash. */
  ghost predicate KeyedBy(hash: string -> Hash32, frames: seq<Captured>, h: Hash32, key: string)
  {
    exists i :: 0 <= i < |frames| && KeyOf(frames[i].layers) == Some(key) && HashOf(hash, frames[i].layers) == h
  }

  /** Every recorded key is that of a frame with that hash, and every frame with a key has its hash recorded. */
  lemma {:induction false} KeysComeFrom(hash: string -> Hash32, frames: seq<Captured>)
    ensures forall h :: h in KeysSeen(hash, frames) ==> KeyedBy(hash, frames, h, KeysSeen(hash, frames)[h])
    ensures forall i :: 0 <= i < |frames| && KeyOf(frames[i].layers).Some? ==>
      HashOf(hash, frames[i].layers) in KeysSeen(hash, frames)
    decreases |frames|
  {
    hide KeyOf;
    if frames != [] {
      var n := |frames| - 1;
      var front := frames[..n];
      KeysComeFrom(hash, front);
      forall h | h in KeysSeen(hash, frames) ensures KeyedBy(hash, frames, h, KeysSeen(hash, frames)[h]) {
        if h in KeysSeen(hash, front) {
          assert KeyedBy(hash, front, h, KeysSeen(hash, front)[h]);
          var i :| 0 <= i < |front| && KeyOf(front[i].layers) == Some(KeysSeen(hash, front)[h])
            && HashOf(hash, front[i].layers) == h;
          assert frames[i] == front[i];
        } else {
          assert KeyOf(frames[n].layers) == Some(KeysSeen(hash, frames)[h]);
        }
      }
      forall i | 0 <= i < |frames| && KeyOf(frames[i].layers).Some?
        ensures HashOf(hash, frames[i].layers) in KeysSeen(hash, frames) {
        if i < n { assert front[i] == frames[i]; }
      }
    }
  }

  /** Every key is recovered exactly when the hash separates the keys seen. */
  lemma KeysRecoveredIff(hash: string -> Hash32, frames: seq<Captured>)
    ensures (forall i :: 0 <= i < |frames| ==> Recovered(hash, frames, i)) <==> Separated(hash, frames)
  {
    hide KeyOf, KeysSeen;
    KeysComeFrom(hash, frames);
    if Separated(hash, frames) {
      forall i | 0 <= i < |frames| ensures Recovered(hash, frames, i) {
        var h := HashOf(hash, frames[i].layers);
        if h in KeysSeen(hash, frames) {
          assert KeyedBy(hash, frames, h, KeysSeen(hash, frames)[h]);
          var j :| 0 <= j < |frames| && KeyOf(frames[j].layers) == Some(KeysSeen(hash, frames)[h])
            && HashOf(hash, frames[j].layers) == h;
        }
      }
    }
    if forall i :: 0 <= i < |frames| ==> Recovered(hash, frames, i) {
      forall i, j | 0 <= i < |frames| && 0 <= j < |frames|
        && HashOf(hash, frames[i].layers) == HashOf(hash, frames[j].layers)
        ensures KeyOf(frames[i].layers) == KeyOf(frames[j].layers)
      {
        assert Recovered(hash, frames, i) && Recovered(hash, frames, j);
      }
    }
  }

  /** The protocol names in the order they were first seen. */
  function NamesSeen(frames: seq<Captured>): seq<string>
  {
    if frames == [] then []
    else
      var before, name := NamesSeen(frames[..|frames| - 1]), TopProtocol(frames[|frames| - 1].layers);
      if name in before then before else before + [name]
  }

  /** The row a frame is stored as, under a protocol id. */
  function RowOf(hash: string -> Hash32, c: Captured, protocolId: int): Row
  {
    Row(c.fileOffset, c.capturedLength, c.originalLength, c.timestamp, protocolId, HashOf(hash, c.layers),
        Direction(FlowOf(c.layers)))
  }

  /** The first place of a name. */
  function Place(names: seq<string>, name: string): nat
  {
    if names == [] || names[0] == name then 0 else 1 + Place(names[1..], name)
  }

  lemma {:induction false} PlaceOf(names: seq<string>, id: nat)
    requires id < |names| && forall j :: 0 <= j < id ==> names[j] != names[id]
    ensures Place(names, names[id]) == id
    decreases |names|
  {
    if id > 0 { PlaceOf(names[1..], id - 1); }
  }

  lemma {:induction false} PlaceKept(names: seq<string>, more: seq<string>, name: string)
    requires name in names
    ensures Place(names + more, name) == Place(names, name)
    decreases |names|
  {
    if names[0] != name {
      assert (names + more)[1..] == names[1..] + more;
      PlaceKept(names[1..], more, name);
    } else {
      assert (names + more)[0] == name;
    }
  }

  lemma {:induction false} PlaceIs(names: seq<string>, name: string)
    requires name in names
    ensures Place(names, name) < |names| && names[Place(names, name)] == name
    decreases |names|
  {
    if names[0] != name { PlaceIs(names[1..], name); }
  }

  /** A stored row is that of the frame, its protocol id the place of its top protocol's name. */
  predicate Tells(hash: string -> Hash32, names: seq<string>, row: Row, c: Captured)
  {
    TopProtocol(c.layers) in names && row == Stored(RowOf(hash, c, Place(names, TopProtocol(c.layers))))
  }

  /** `protocolName`: the name at a place. */
  function NameOf(names: seq<string>, id: int): string
  {
    if 0 <= id < |names| then names[id] else "unknown"
  }

  /** Every name is some frame's top protocol, no name is there twice, and every frame's is there. */
  lemma {:induction false} NamesComeFrom(frames: seq<Captured>)
    ensures forall k :: 0 <= k < |NamesSeen(frames)| ==> NamedBy(frames, NamesSeen(frames)[k])
    ensures forall i, j :: 0 <= i < j < |NamesSeen(frames)| ==> NamesSeen(frames)[i] != NamesSeen(frames)[j]
    ensures forall i :: 0 <= i < |frames| ==> TopProtocol(frames[i].layers) in NamesSeen(frames)
    decreases |frames|
  {
    hide TopProtocol, NamedBy;
    if frames != [] {
      var n := |frames| - 1;
      NamesComeFrom(frames[..n]);
      forall name ensures NamedBy(frames[..n], name) ==> NamedBy(frames, name) { NamedStill(frames, n, name); }
      LastNames(frames);
      assert forall i :: 0 <= i < n ==> frames[..n][i] == frames[i];
    }
  }

  ghost predicate NamedBy(frames: seq<Captured>, name: string)
  {
    exists i :: 0 <= i < |frames| && TopProtocol(frames[i].layers) == name
  }

  lemma NamedStill(frames: seq<Captured>, n: nat, name: string)
    requires n <= |frames|
    ensures NamedBy(frames[..n], name) ==> NamedBy(frames, name)
  {
    hide TopProtocol;
    if NamedBy(frames[..n], name) {
      var i :| 0 <= i < n && TopProtocol(frames[..n][i].layers) == name;
      assert frames[..n][i] == frames[i];
    }
  }

  lemma LastNames(frames: seq<Captured>)
    requires frames != []
    ensures NamedBy(frames, TopProtocol(frames[|frames| - 1].layers))
  {
  }

  /** Every frame's top protocol is found again from its 16-bit id if and only if there are at most 65536 names. */
  lemma NamesRecoveredIff(frames: seq<Captured>)
    ensures (forall i :: 0 <= i < |frames| ==> NameRecovered(frames, i)) <==> |NamesSeen(frames)| <= 0x1_0000
  {
    hide TopProtocol, NamesSeen, Place;
    NamesComeFrom(frames);
    var names := NamesSeen(frames);
    if |names| <= 0x1_0000 {
      forall i | 0 <= i < |frames| ensures NameRecovered(frames, i) { PlaceIs(names, TopProtocol(frames[i].layers)); }
    } else {
      var name := names[0x1_0000];
      assert NamedBy(frames, name);
      var i :| 0 <= i < |frames| && TopProtocol(frames[i].layers) == name;
      PlaceOf(names, 0x1_0000);
      assert !NameRecovered(frames, i);
    }
  }

  /** Frames with as many different top protocols as there are frames. */
  function NamedByLength(n: nat): (frames: seq<Captured>)
    ensures |frames| == n
  {
    seq(n, i requires 0 <= i < n => Captured([Layer(seq(i, _ => 'p'), true, map[])], 0, 0, 0, 0.0))
  }

  lemma {:induction false} AllNamesDiffer(n: nat, k: nat)
    requires k <= n
    ensures |NamesSeen(NamedByLength(n)[..k])| == k
    ensures forall name :: name in NamesSeen(NamedByLength(n)[..k]) ==> |name| < k
    decreases k
  {
    hide TopProtocol, NamedByLength;
    if k > 0 {
      var frames := NamedByLength(n);
      AllNamesDiffer(n, k - 1);
      NameLength(n, k - 1);
      assert frames[..k][..k - 1] == frames[..k - 1];
    }
  }

  lemma NameLength(n: nat, i: nat)
    requires i < n
    ensures |TopProtocol(NamedByLength(n)[i].layers)| == i
  {
    assert TopProtocol(NamedByLength(n)[i].layers) == seq(i, _ => 'p');
  }

  /** One name more than a 16-bit column can tell apart: some frame is listed under another frame's protocol. */
  lemma TooManyNames()
    ensures exists i :: 0 <= i < 0x1_0001 && !NameRecovered(NamedByLength(0x1_0001), i)
  {
    hide NameRecovered, NamesSeen;
    AllNamesDiffer(0x1_0001, 0x1_0001);
    assert NamedByLength(0x1_0001)[..0x1_0001] == NamedByLength(0x1_0001);
    NamesRecoveredIff(NamedByLength(0x1_0001));
  }

  predicate NameRecovered(frames: seq<Captured>, i: nat)
    requires i < |frames|
  {
    var name := TopProtocol(frames[i].layers);
    NameOf(NamesSeen(frames), Place(NamesSeen(frames), name) % 0x1_0000) == name
  }

  lemma NamesStep(frames: seq<Captured>, c: Captured)
    ensures var before, name := NamesSeen(frames), TopProtocol(c.layers);
      NamesSeen(frames + [c]) == if name in before then before else before + [name]
  {
    assert (frames + [c])[..|frames|] == frames;
  }

  lemma TellsStill(hash: string -> Hash32, names: seq<string>, more: seq<string>, row: Row, c: Captured)
    requires Tells(hash, names, row, c) && names <= more
    ensures Tells(hash, more, row, c)
  {
    hide TopProtocol, Place, RowOf, Stored;
    assert more == names + more[|names|..];
    PlaceKept(names, more[|names|..], TopProtocol(c.layers));
  }

  class FrameIndexer {
    const store: ColumnarIndexStore
    const hash: string -> Hash32
    var protocolIds: map<string, nat>
    var protocolNames: seq<string>
    var conversationKeys: map<Hash32, string>
    /** Every frame added. */
    ghost var frames: seq<Captured>

    /** Names and ids are inverse. */
    ghost predicate Ids()
      reads this`protocolIds, this`protocolNames
    {
      && (forall name :: name in protocolNames ==> name in protocolIds)
      && (forall i, j :: 0 <= i < j < |protocolNames| ==> protocolNames[i] != protocolNames[j])
      && (forall name :: name in protocolIds ==>
            protocolIds[name] < |protocolNames| && protocolNames[protocolIds[name]] == name)
    }

    /** Both dictionaries are functions of the frames added. */
    ghost predicate Dictionaries()
      reads this
    {
      Ids() && protocolNames == NamesSeen(frames) && conversationKeys == KeysSeen(hash, frames)
    }

    ghost predicate Valid()
      reads this, store, store.columns.Repr
    {
      && store.Valid() && Dictionaries() && |store.log| == |frames|
      && forall i :: 0 <= i < |frames| ==> Tells(hash, protocolNames, store.log[i], frames[i])
    }

    constructor (store: ColumnarIndexStore, hash: string -> Hash32)
      requires store.Valid() && store.log == []
      ensures Valid() && this.store == store && this.hash == hash && frames == []
    {
      this.store, this.hash := store, hash;
      protocolIds, protocolNames, conversationKeys, frames := map[], [], map[], [];
    }

    method ProtocolId(name: string) returns (id: nat)
      requires Ids()
      modifies this`protocolIds, this`protocolNames
      ensures Ids() && name in protocolNames && id == Place(protocolNames, name)
      ensures old(protocolNames) <= protocolNames
      ensures protocolNames == if name in old(protocolNames) then old(protocolNames) else old(protocolNames) + [name]
    {
      if name in protocolIds {
        id := protocolIds[name];
      } else {
        id := |protocolNames|;
        protocolIds := protocolIds[name := id];
        protocolNames := protocolNames + [name];
      }
      PlaceOf(protocolNames, id);
    }

    /** Records the frame's key under its hash, unless the hash is taken. */
    method Remember(c: Captured)
      requires conversationKeys == KeysSeen(hash, frames)
      modifies this`conversationKeys
      ensures conversationKeys == KeysSeen(hash, frames + [c])
    {
      hide KeyOf;
      var key := KeyOf(c.layers);
      assert (frames + [c])[..|frames|] == frames;
      if key.Some? && hash(key.value) !in conversationKeys {
        conversationKeys := conversationKeys[hash(key.value) := key.value];
      }
    }

    /** Both dictionaries learn the frame; its top protocol's id is returned. */
    method Learn(c: Captured) returns (id: nat)
      requires Dictionaries()
      modifies this
      ensures Dictionaries() && frames == old(frames) + [c] && old(protocolNames) <= protocolNames
      ensures TopProtocol(c.layers) in protocolNames && id == Place(protocolNames, TopProtocol(c.layers))
    {
      hide TopProtocol, Place, KeysSeen, NamesSeen, Ids;
      NamesStep(frames, c);
      Remember(c);
      id := ProtocolId(TopProtocol(c.layers));
      frames := frames + [c];
    }

    method Add(c: Captured) returns (index: nat)
      requires Valid()
      modifies this, store, store.columns.Repr
      ensures Valid() && frames == old(frames) + [c] && index == |old(frames)|
      ensures store.base == old(store.base) && (store.columns == old(store.columns) || fresh(store.columns.Repr))
    {
      hide TopProtocol, Stored, RowOf, Dictionaries, Place;
      ghost var names, log, before := protocolNames, store.log, frames;
      var protocolId := Learn(c);
      index := store.Append(RowOf(hash, c, protocolId));
      assert Tells(hash, protocolNames, store.log[index], c);
      hide Tells;
      forall i | 0 <= i < |frames| ensures Tells(hash, protocolNames, store.log[i], frames[i]) {
        if i < |before| { TellsStill(hash, names, protocolNames, log[i], before[i]); }
      }
    }

    function ProtocolName(id: int): string
      reads this
    {
      NameOf(protocolNames, id)
    }

    function ConversationKey(h: int): Option<string>
      reads this
    {
      Lookup(conversationKeys, h)
    }
  }

  /** Of several keys with one hash, the first seen is the one recorded. */
  lemma {:induction false} FirstKeyStays(hash: string -> Hash32, frames: seq<Captured>, i: nat)
    requires i < |frames| && KeyOf(frames[i].layers).Some?
    requires forall j ::
      0 <= j < i && KeyOf(frames[j].layers).Some? ==>
        hash(KeyOf(frames[j].layers).value) != hash(KeyOf(frames[i].layers).value)
    ensures var key := KeyOf(frames[i].layers).value; Lookup(KeysSeen(hash, frames), hash(key)) == Some(key)
    decreases |frames|
  {
    hide KeyOf;
    var n := |frames| - 1;
    if i < n {
      FirstKeyStays(hash, frames[..n], i);
    } else {
      var front, h := frames[..n], hash(KeyOf(frames[n].layers).value);
      KeysComeFrom(hash, front);
      assert forall j :: 0 <= j < n ==> front[j] == frames[j];
      assert forall key :: !KeyedBy(hash, front, h, key);
    }
  }

  /** The hash column holds the hash of the key, and 0 for a frame without one. */
  lemma HashTells(hash: string -> Hash32, layers: seq<Layer>)
    ensures match KeyOf(layers)
            case Some(key) => HashOf(hash, layers) == hash(key)
            case None => HashOf(hash, layers) == 0
  {
    hide KeyOf;
  }
}
