/**
 What of a document a record depends on: for each of its slots, the pairs under that slot's
 keys, in order. Unknown keys, the objects pairs are grouped in and the order between slots
 make no difference.
 */
module RecordReading {
  import opened Wrappers
  import opened Model
  import opened Json
  import opened Codec

  predicate AllObjects(elements: seq<Json>) {
    forall i :: 0 <= i < |elements| ==> elements[i].JObject?
  }

  /** The pairs of all the objects of an array, one after another. */
  function Pairs(elements: seq<Json>): seq<Member>
    requires AllObjects(elements)
  {
    if elements == [] then [] else elements[0].members + Pairs(elements[1..])
  }

  predicate Known(slots: seq<Slot>, m: Member) {
    SlotFor(slots, m.key) < |slots|
  }

  /** The pairs under the keys of slot `i`, in order. */
  function Mine(slots: seq<Slot>, i: nat, pairs: seq<Member>): seq<Member> {
    if pairs == [] then []
    else
      var m := pairs[|pairs| - 1];
      Mine(slots, i, pairs[..|pairs| - 1]) + if SlotFor(slots, m.key) == i then [m] else []
  }

  function KeyNumber(slot: Slot, m: Member): nat {
    IndexOf(KeysOf(slot), m.key)
  }

  predicate ReadableIn(slot: Slot, m: Member) {
    KeyNumber(slot, m) < |KeysOf(slot)| && Decode(ContentType(slot, KeyNumber(slot, m)), m.value).Some?
  }

  function Content(slot: Slot, m: Member): Value
    requires ReadableIn(slot, m)
  {
    Decode(ContentType(slot, KeyNumber(slot, m)), m.value).value
  }

  predicate AllReadable(slot: Slot, mine: seq<Member>) {
    forall k :: 0 <= k < |mine| ==> ReadableIn(slot, mine[k])
  }

  /** What a slot's own pairs make of it: the last one wins, and a repeated group takes them all. */
  function ReadOff(slot: Slot, mine: seq<Member>): Option<Value>
    requires AllReadable(slot, mine)
  {
    if mine == [] then None
    else
      var last := mine[|mine| - 1];
      match slot
      case Named(_) => Some(Content(slot, last))
      case Inline(_) => Some(Choice(KeyNumber(slot, last), Content(slot, last)))
      case InlineMany(_) => Some(Repeated(ReadEach(slot, mine)))
  }

  predicate Readable(slots: seq<Slot>, pairs: seq<Member>) {
    forall i :: 0 <= i < |slots| ==> AllReadable(slots[i], Mine(slots, i, pairs))
  }

  function Fields(slots: seq<Slot>, pairs: seq<Member>): seq<Option<Value>>
    requires Readable(slots, pairs)
  {
    seq(|slots|, i requires 0 <= i < |slots| => ReadOff(slots[i], Mine(slots, i, pairs)))
  }

  lemma {:induction false} MembersAppend(slots: seq<Slot>, a: seq<Member>, b: seq<Member>, fields: seq<Option<Value>>)
    requires |fields| == |slots|
    ensures DecodeMembers(slots, a + b, fields)
         == var first := DecodeMembers(slots, a, fields);
            if first.None? then None else DecodeMembers(slots, b, first.value)
    decreases |a|
  {
    if a == [] {
      assert a + b == b;
    } else {
      assert (a + b)[1..] == a[1..] + b;
      var i := SlotFor(slots, a[0].key);
      if i == |slots| {
        MembersAppend(slots, a[1..], b, fields);
      } else {
        var k := IndexOf(KeysOf(slots[i]), a[0].key);
        var v := Decode(ContentType(slots[i], k), a[0].value);
        if v.Some? {
          MembersAppend(slots, a[1..], b, fields[i := Some(Put(slots[i], fields[i], k, v.value))]);
        }
      }
    }
  }

  /** Regrouping pairs across the objects of the array changes nothing. */
  lemma {:induction false} OnlyPairsMatter(slots: seq<Slot>, elements: seq<Json>, fields: seq<Option<Value>>)
    requires |fields| == |slots|
    ensures DecodeElements(slots, elements, fields)
         == if AllObjects(elements) then DecodeMembers(slots, Pairs(elements), fields) else None
    decreases |elements|
  {
    if elements != [] && elements[0].JObject? {
      var next := DecodeMembers(slots, elements[0].members, fields);
      assert AllObjects(elements) <==> AllObjects(elements[1..]) by {
        assert forall i :: 1 <= i < |elements| ==> elements[i] == elements[1..][i - 1];
      }
      if next.Some? {
        OnlyPairsMatter(slots, elements[1..], next.value);
      }
      if AllObjects(elements) {
        MembersAppend(slots, elements[0].members, Pairs(elements[1..]), fields);
      }
    }
  }

  lemma OneMember(slots: seq<Slot>, m: Member, fields: seq<Option<Value>>)
    requires |fields| == |slots|
    ensures DecodeMembers(slots, [m], fields)
         == var i := SlotFor(slots, m.key);
            if i == |slots| then Some(fields)
            else if ReadableIn(slots[i], m)
            then Some(fields[i := Some(Put(slots[i], fields[i], KeyNumber(slots[i], m), Content(slots[i], m)))])
            else None
  {
    assert [m][1..] == [];
  }

  /** All of a repeated group's pairs, read. */
  function ReadEach(slot: Slot, mine: seq<Member>): seq<Value>
    requires AllReadable(slot, mine)
  {
    seq(|mine|, k requires 0 <= k < |mine| => Choice(KeyNumber(slot, mine[k]), Content(slot, mine[k])))
  }

  lemma ReadsEachOneMore(slot: Slot, mine: seq<Member>, m: Member)
    requires AllReadable(slot, mine) && ReadableIn(slot, m)
    ensures AllReadable(slot, mine + [m])
    ensures ReadEach(slot, mine + [m]) == ReadEach(slot, mine) + [Choice(KeyNumber(slot, m), Content(slot, m))]
  {
    hide ReadableIn, Content, KeyNumber;
  }

  lemma ReadsOneMore(slot: Slot, mine: seq<Member>, m: Member)
    requires AllReadable(slot, mine) && ReadableIn(slot, m)
    ensures AllReadable(slot, mine + [m])
    ensures ReadOff(slot, mine + [m])
         == Some(Put(slot, ReadOff(slot, mine), KeyNumber(slot, m), Content(slot, m)))
  {
    ReadsEachOneMore(slot, mine, m);
    hide ReadableIn, AllReadable, Content, KeyNumber, ReadEach;
    assert (mine + [m])[|mine|] == m;
    if mine == [] {
      NothingEach(slot);
      assert [] + [Choice(KeyNumber(slot, m), Content(slot, m))] == [Choice(KeyNumber(slot, m), Content(slot, m))];
    }
  }

  lemma NothingEach(slot: Slot)
    ensures AllReadable(slot, []) && ReadEach(slot, []) == []
  {
  }

  lemma MineOneMore(slots: seq<Slot>, i: nat, pairs: seq<Member>, m: Member)
    ensures Mine(slots, i, pairs + [m]) == if SlotFor(slots, m.key) == i then Mine(slots, i, pairs) + [m] else Mine(slots, i, pairs)
  {
    assert (pairs + [m])[..|pairs|] == pairs;
  }

  lemma AllReadableAppend(slot: Slot, a: seq<Member>, b: seq<Member>)
    ensures AllReadable(slot, a + b) <==> AllReadable(slot, a) && AllReadable(slot, b)
  {
    hide ReadableIn;
    if AllReadable(slot, a + b) {
      forall k | 0 <= k < |b| ensures ReadableIn(slot, b[k]) {
        assert (a + b)[|a| + k] == b[k];
      }
      forall k | 0 <= k < |a| ensures ReadableIn(slot, a[k]) {
        assert (a + b)[k] == a[k];
      }
    }
  }

  lemma ReadableOneMore(slots: seq<Slot>, pairs: seq<Member>, m: Member)
    ensures Readable(slots, pairs + [m])
       <==> Readable(slots, pairs) && (SlotFor(slots, m.key) < |slots| ==> ReadableIn(slots[SlotFor(slots, m.key)], m))
  {
    hide ReadableIn, AllReadable, Mine;
    forall i | 0 <= i < |slots|
      ensures AllReadable(slots[i], Mine(slots, i, pairs + [m]))
         <==> AllReadable(slots[i], Mine(slots, i, pairs)) && (SlotFor(slots, m.key) == i ==> ReadableIn(slots[i], m))
    {
      MineOneMore(slots, i, pairs, m);
      AllReadableAppend(slots[i], Mine(slots, i, pairs), [m]);
      AllReadableOne(slots[i], m);
    }
  }

  lemma AllReadableOne(slot: Slot, m: Member)
    ensures AllReadable(slot, [m]) <==> ReadableIn(slot, m)
  {
    assert [m][0] == m;
  }

  lemma FieldAt(slots: seq<Slot>, pairs: seq<Member>, i: nat)
    requires Readable(slots, pairs) && i < |slots|
    ensures AllReadable(slots[i], Mine(slots, i, pairs))
    ensures |Fields(slots, pairs)| == |slots| && Fields(slots, pairs)[i] == ReadOff(slots[i], Mine(slots, i, pairs))
  {
  }

  lemma OneFieldASlot(slots: seq<Slot>, pairs: seq<Member>)
    requires Readable(slots, pairs)
    ensures |Fields(slots, pairs)| == |slots|
  {
  }

  lemma FieldOneMore(slots: seq<Slot>, pairs: seq<Member>, m: Member, i: nat)
    requires Readable(slots, pairs) && Readable(slots, pairs + [m]) && i < |slots|
    ensures |Fields(slots, pairs)| == |slots| == |Fields(slots, pairs + [m])|
    ensures SlotFor(slots, m.key) != i ==> Fields(slots, pairs + [m])[i] == Fields(slots, pairs)[i]
    ensures SlotFor(slots, m.key) == i ==>
              && ReadableIn(slots[i], m)
              && Fields(slots, pairs + [m])[i]
              == Some(Put(slots[i], Fields(slots, pairs)[i], KeyNumber(slots[i], m), Content(slots[i], m)))
  {
    ReadableOneMore(slots, pairs, m);
    hide *;
    FieldAt(slots, pairs, i);
    FieldAt(slots, pairs + [m], i);
    MineOneMore(slots, i, pairs, m);
    if SlotFor(slots, m.key) == i {
      ReadsOneMore(slots[i], Mine(slots, i, pairs), m);
    }
  }

  lemma FieldsOneMore(slots: seq<Slot>, pairs: seq<Member>, m: Member)
    requires Readable(slots, pairs) && Readable(slots, pairs + [m])
    ensures |Fields(slots, pairs)| == |slots|
    ensures Some(Fields(slots, pairs + [m])) == DecodeMembers(slots, [m], Fields(slots, pairs))
  {
    hide *;
    OneFieldASlot(slots, pairs);
    OneFieldASlot(slots, pairs + [m]);
    var before, after := Fields(slots, pairs), Fields(slots, pairs + [m]);
    forall i | 0 <= i < |slots| && i != SlotFor(slots, m.key) ensures after[i] == before[i] {
      FieldOneMore(slots, pairs, m, i);
    }
    OneMember(slots, m, before);
    var s := SlotFor(slots, m.key);
    if s < |slots| {
      FieldOneMore(slots, pairs, m, s);
      assert after == before[s := after[s]];
    } else {
      assert after == before;
    }
  }

  /**
   Reading pairs one by one into a blank record leaves in every slot what its own pairs make of
   it, and fails exactly when some pair under a known key cannot be read.
   */
  lemma {:induction false} LastPairWins(slots: seq<Slot>, pairs: seq<Member>)
    ensures DecodeMembers(slots, pairs, Blank(slots))
         == if Readable(slots, pairs) then Some(Fields(slots, pairs)) else None
    decreases |pairs|
  {
    hide DecodeMembers, Readable, Fields;
    if pairs == [] {
      NothingRead(slots);
    } else {
      var front, m := pairs[..|pairs| - 1], pairs[|pairs| - 1];
      assert pairs == front + [m];
      LastPairWins(slots, front);
      MembersAppend(slots, front, [m], Blank(slots));
      ReadableOneMore(slots, front, m);
      if Readable(slots, front) {
        OneMember(slots, m, Fields(slots, front));
        if Readable(slots, pairs) {
          FieldsOneMore(slots, front, m);
        }
      }
    }
  }

  lemma NothingRead(slots: seq<Slot>)
    ensures DecodeMembers(slots, [], Blank(slots)) == Some(Blank(slots))
    ensures Readable(slots, []) && Fields(slots, []) == Blank(slots)
  {
  }

  /** The same for a whole document. */
  lemma DocumentIsItsPairs(slots: seq<Slot>, j: Json)
    ensures Decode(RecordType(slots), j)
         == if j.JArray? && AllObjects(j.elements) && Readable(slots, Pairs(j.elements))
            then Some(Record(Fields(slots, Pairs(j.elements)))) else None
  {
    if j.JArray? {
      OnlyPairsMatter(slots, j.elements, Blank(slots));
      if AllObjects(j.elements) {
        LastPairWins(slots, Pairs(j.elements));
      }
    }
  }

  /**
   Two documents with the same pairs for each slot mean the same, whatever unknown keys they
   carry, however their pairs are grouped and in whatever order the slots come.
   */
  lemma SamePairsSameRecord(slots: seq<Slot>, p: seq<Json>, q: seq<Json>)
    requires AllObjects(p) && AllObjects(q)
    requires forall i :: 0 <= i < |slots| ==> Mine(slots, i, Pairs(p)) == Mine(slots, i, Pairs(q))
    ensures Decode(RecordType(slots), JArray(p)) == Decode(RecordType(slots), JArray(q))
  {
    DocumentIsItsPairs(slots, JArray(p));
    DocumentIsItsPairs(slots, JArray(q));
    if Readable(slots, Pairs(p)) && Readable(slots, Pairs(q)) {
      assert Fields(slots, Pairs(p)) == Fields(slots, Pairs(q));
    }
  }

  lemma {:induction false} MineAppend(slots: seq<Slot>, i: nat, a: seq<Member>, b: seq<Member>)
    ensures Mine(slots, i, a + b) == Mine(slots, i, a) + Mine(slots, i, b)
    decreases |b|
  {
    if b == [] {
      assert a + b == a;
    } else {
      var front, m := b[..|b| - 1], b[|b| - 1];
      assert a + b == a + front + [m] && b == front + [m];
      MineAppend(slots, i, a, front);
      MineOneMore(slots, i, a + front, m);
      MineOneMore(slots, i, front, m);
    }
  }

  /** Pairs under unknown keys can be inserted anywhere. */
  lemma UnknownPairsAreSkipped(slots: seq<Slot>, a: seq<Member>, unknown: seq<Member>, b: seq<Member>)
    requires forall k :: 0 <= k < |unknown| ==> !Known(slots, unknown[k])
    ensures DecodeMembers(slots, a + unknown + b, Blank(slots)) == DecodeMembers(slots, a + b, Blank(slots))
  {
    hide DecodeMembers, ReadAlike, Mine;
    forall i | 0 <= i < |slots| ensures ReadAlike(slots[i], Mine(slots, i, a + unknown + b), Mine(slots, i, a + b)) {
      MineAppend(slots, i, a + unknown, b);
      MineAppend(slots, i, a, unknown);
      MineAppend(slots, i, a, b);
      NoneMine(slots, i, unknown);
      assert Mine(slots, i, a) + [] == Mine(slots, i, a);
      ReadAlikeItself(slots[i], Mine(slots, i, a + b));
    }
    PairsReadAlike(slots, a + unknown + b, a + b);
  }

  lemma {:induction false} NoneMine(slots: seq<Slot>, i: nat, pairs: seq<Member>)
    requires i < |slots| && forall k :: 0 <= k < |pairs| ==> !Known(slots, pairs[k])
    ensures Mine(slots, i, pairs) == []
    decreases |pairs|
  {
    if pairs != [] {
      assert !Known(slots, pairs[|pairs| - 1]);
      NoneMine(slots, i, pairs[..|pairs| - 1]);
    }
  }

  /** Two lists of pairs that a slot reads alike. */
  predicate ReadAlike(slot: Slot, p: seq<Member>, q: seq<Member>) {
    && (AllReadable(slot, p) <==> AllReadable(slot, q))
    && (AllReadable(slot, p) ==> ReadOff(slot, p) == ReadOff(slot, q))
  }

  lemma PairsReadAlike(slots: seq<Slot>, p: seq<Member>, q: seq<Member>)
    requires forall i :: 0 <= i < |slots| ==> ReadAlike(slots[i], Mine(slots, i, p), Mine(slots, i, q))
    ensures DecodeMembers(slots, p, Blank(slots)) == DecodeMembers(slots, q, Blank(slots))
  {
    LastPairWins(slots, p);
    LastPairWins(slots, q);
    hide DecodeMembers, AllReadable, ReadOff, Mine;
    assert Readable(slots, p) <==> Readable(slots, q);
    if Readable(slots, p) {
      assert Fields(slots, p) == Fields(slots, q);
    }
  }

  /** A later pair for an element that occurs once replaces an earlier one that also reads. */
  lemma LaterPairReplaces(slots: seq<Slot>, a: seq<Member>, earlier: Member, b: seq<Member>, later: Member, c: seq<Member>)
    requires Known(slots, later) && !slots[SlotFor(slots, later.key)].InlineMany?
    requires SlotFor(slots, earlier.key) == SlotFor(slots, later.key)
    requires ReadableIn(slots[SlotFor(slots, later.key)], earlier)
    ensures DecodeMembers(slots, a + [earlier] + b + [later] + c, Blank(slots))
         == DecodeMembers(slots, a + b + [later] + c, Blank(slots))
  {
    hide DecodeMembers, ReadAlike, Mine, ReadableIn, SlotFor;
    var p, q := a + [earlier] + b + [later] + c, a + b + [later] + c;
    forall i | 0 <= i < |slots| ensures ReadAlike(slots[i], Mine(slots, i, p), Mine(slots, i, q)) {
      MineWithEarlier(slots, i, a, earlier, b, later, c);
      if i == SlotFor(slots, later.key) {
        EarlierIsOverwritten(slots[i], Mine(slots, i, a), earlier, Mine(slots, i, b), later, Mine(slots, i, c));
      } else {
        var x, y, z := Mine(slots, i, a), Mine(slots, i, b), Mine(slots, i, c);
        assert x + [] + y + [] + z == x + y + [] + z;
        ReadAlikeItself(slots[i], x + y + [] + z);
      }
    }
    PairsReadAlike(slots, p, q);
  }

  lemma ReadAlikeItself(slot: Slot, p: seq<Member>)
    ensures ReadAlike(slot, p, p)
  {
  }

  lemma MineWithEarlier(slots: seq<Slot>, i: nat, a: seq<Member>, earlier: Member, b: seq<Member>, later: Member, c: seq<Member>)
    requires SlotFor(slots, earlier.key) == SlotFor(slots, later.key)
    ensures var mine := SlotFor(slots, later.key) == i;
            && Mine(slots, i, a + [earlier] + b + [later] + c)
                 == Mine(slots, i, a) + (if mine then [earlier] else []) + Mine(slots, i, b)
                  + (if mine then [later] else []) + Mine(slots, i, c)
            && Mine(slots, i, a + b + [later] + c)
                 == Mine(slots, i, a) + Mine(slots, i, b) + (if mine then [later] else []) + Mine(slots, i, c)
  {
    MineAppend(slots, i, a + [earlier] + b + [later], c);
    MineOneMore(slots, i, a + [earlier] + b, later);
    MineAppend(slots, i, a + [earlier], b);
    MineOneMore(slots, i, a, earlier);
    MineAppend(slots, i, a + b + [later], c);
    MineOneMore(slots, i, a + b, later);
    MineAppend(slots, i, a, b);
  }

  lemma EarlierIsOverwritten(slot: Slot, a: seq<Member>, earlier: Member, b: seq<Member>, later: Member, c: seq<Member>)
    requires !slot.InlineMany? && ReadableIn(slot, earlier)
    ensures ReadAlike(slot, a + [earlier] + b + [later] + c, a + b + [later] + c)
  {
    var rest := [later] + c;
    var p, q := a + [earlier] + b + [later] + c, a + b + [later] + c;
    assert p == a + [earlier] + (b + rest) && q == a + (b + rest);
    AllReadableAppend(slot, a + [earlier], b + rest);
    AllReadableAppend(slot, a, [earlier]);
    AllReadableAppend(slot, a, b + rest);
    AllReadableOne(slot, earlier);
    assert p[|p| - 1] == rest[|c|] == q[|q| - 1];
    hide AllReadable, ReadableIn;
  }
}
