/** What the normal form of a JSON value is, said value by value instead of step by step
    (`backend/app/policy_contract.py`). */
module NormalJson {
  import opened Wrappers
  import opened CanonicalJson

  /** No later assignment has the same key after normalisation. */
  ghost predicate Wins(nfc: string -> string, entries: seq<Entry>, i: int) {
    0 <= i < |entries| && forall j :: i < j < |entries| ==> nfc(entries[j].key) != nfc(entries[i].key)
  }

  /** `w` is `v` with every text in NFC and every object sorted by code points, holding under each
      normalised key what was assigned to it last. */
  ghost predicate IsNormal(nfc: string -> string, v: Value, w: Value)
    decreases v
  {
    match v
    case Str(s) => w == Str(nfc(s))
    case List(items) =>
      w.List? && |w.items| == |items| && forall i :: 0 <= i < |items| ==> IsNormal(nfc, items[i], w.items[i])
    case Dict(entries) =>
      && w.Dict? && Ascending(w.entries)
      && (forall i :: Wins(nfc, entries, i) ==>
            exists j :: 0 <= j < |w.entries| && w.entries[j].key == nfc(entries[i].key))
      && (forall j :: 0 <= j < |w.entries| ==> IsEntry(nfc, v, w.entries[j]))
    case _ => w == v
  }

  /** The entry of the normal form comes from a winning assignment. */
  ghost predicate IsEntry(nfc: string -> string, v: Value, e: Entry)
    requires v.Dict?
    decreases v, 0
  {
    exists i :: Wins(nfc, v.entries, i) && e.key == nfc(v.entries[i].key) && IsNormal(nfc, v.entries[i].value, e.value)
  }

  lemma {:induction false} NormalizeIsNormal(nfc: string -> string, v: Value)
    ensures IsNormal(nfc, v, Normalize(nfc, v))
    decreases v, 1
  {
    match v {
      case List(items) =>
        ItemsAre(nfc, items);
        forall i | 0 <= i < |items| ensures IsNormal(nfc, items[i], NormalizeItems(nfc, items)[i]) {
          NormalizeIsNormal(nfc, items[i]);
        }
      case Dict(entries) => EntriesAreNormal(nfc, v);
      case _ =>
    }
  }

  lemma {:induction false} ItemsAre(nfc: string -> string, items: seq<Value>)
    ensures |NormalizeItems(nfc, items)| == |items|
    ensures forall i :: 0 <= i < |items| ==> NormalizeItems(nfc, items)[i] == Normalize(nfc, items[i])
  {
    if items != [] {
      ItemsAre(nfc, items[1..]);
    }
  }

  lemma {:induction false} LastWins(nfc: string -> string, entries: seq<Entry>, key: string) returns (i: int)
    requires LastAssignment(nfc, entries, key).Some?
    ensures Wins(nfc, entries, i) && nfc(entries[i].key) == key
    ensures LastAssignment(nfc, entries, key) == Some(entries[i].value)
  {
    if LastAssignment(nfc, entries[1..], key).Some? {
      var k := LastWins(nfc, entries[1..], key);
      i := k + 1;
      assert entries[1..][k] == entries[i];
      forall j | i < j < |entries| ensures nfc(entries[j].key) != nfc(entries[i].key) {
        assert entries[j] == entries[1..][j - 1];
      }
    } else {
      i := 0;
      forall j | 0 < j < |entries| ensures nfc(entries[j].key) != key {
        SomeAssignment(nfc, entries[1..], j - 1);
      }
    }
  }

  lemma {:induction false} SomeAssignment(nfc: string -> string, entries: seq<Entry>, i: nat)
    requires i < |entries|
    ensures LastAssignment(nfc, entries, nfc(entries[i].key)).Some?
  {
    if i > 0 {
      SomeAssignment(nfc, entries[1..], i - 1);
    }
  }

  lemma {:induction false} EntriesAreNormal(nfc: string -> string, v: Value)
    requires v.Dict?
    ensures IsNormal(nfc, v, Normalize(nfc, v))
    decreases v, 0
  {
    var entries, out := v.entries, NormalizeEntries(nfc, v.entries);
    NormalizedLookup(nfc, entries, "");
    forall i | Wins(nfc, entries, i) ensures exists j :: 0 <= j < |out| && out[j].key == nfc(entries[i].key) {
      SomeAssignment(nfc, entries, i);
      NormalizedLookup(nfc, entries, nfc(entries[i].key));
      LookupMember(out, nfc(entries[i].key));
    }
    forall j | 0 <= j < |out| ensures IsEntry(nfc, v, out[j]) {
      EntryIsHeld(out, j);
      NormalizedLookup(nfc, entries, out[j].key);
      var i := LastWins(nfc, entries, out[j].key);
      NormalizeIsNormal(nfc, entries[i].value);
    }
  }

  lemma EntryIsHeld(entries: seq<Entry>, j: nat)
    requires Ascending(entries) && j < |entries|
    ensures Lookup(entries, entries[j].key) == Some(entries[j].value)
  {
    var key := entries[j].key;
    LookupMember(entries, key);
    var i :| 0 <= i < |entries| && entries[i] == Entry(key, Lookup(entries, key).value);
    assert i == j;
  }

  /** There is only one such value, so this is what `Normalize` computes. */
  lemma {:induction false} NormalFormExactly(nfc: string -> string, v: Value, w: Value)
    ensures IsNormal(nfc, v, w) <==> w == Normalize(nfc, v)
    decreases v, 2
  {
    NormalizeIsNormal(nfc, v);
    if IsNormal(nfc, v, w) {
      match v {
        case List(items) =>
          ItemsAre(nfc, items);
          forall i | 0 <= i < |items| ensures w.items[i] == NormalizeItems(nfc, items)[i] {
            NormalFormExactly(nfc, items[i], w.items[i]);
          }
        case Dict(entries) => OneNormalObject(nfc, v, w);
        case _ =>
      }
    }
  }

  lemma {:induction false} OneNormalObject(nfc: string -> string, v: Value, w: Value)
    requires v.Dict? && IsNormal(nfc, v, w)
    ensures w == Normalize(nfc, v)
    decreases v, 1
  {
    var out := NormalizeEntries(nfc, v.entries);
    NormalizedLookup(nfc, v.entries, "");
    forall key ensures Lookup(w.entries, key) == Lookup(out, key) {
      NormalizedLookup(nfc, v.entries, key);
      LookupMember(w.entries, key);
      if Lookup(w.entries, key).Some? {
        HeldIsLast(nfc, v, w, key);
      } else if Lookup(out, key).Some? {
        var i := LastWins(nfc, v.entries, key);
      }
    }
    AscendingUnique(w.entries, out);
  }

  lemma {:induction false} HeldIsLast(nfc: string -> string, v: Value, w: Value, key: string)
    requires v.Dict? && IsNormal(nfc, v, w) && Lookup(w.entries, key).Some?
    ensures LastAssignment(nfc, v.entries, key).Some?
    ensures Lookup(w.entries, key) == Some(Normalize(nfc, LastAssignment(nfc, v.entries, key).value))
    decreases v, 0
  {
    LookupMember(w.entries, key);
    var j :| 0 <= j < |w.entries| && w.entries[j] == Entry(key, Lookup(w.entries, key).value);
    assert IsEntry(nfc, v, w.entries[j]);
    var i :| Wins(nfc, v.entries, i) && key == nfc(v.entries[i].key)
             && IsNormal(nfc, v.entries[i].value, w.entries[j].value);
    SomeAssignment(nfc, v.entries, i);
    var k := LastWins(nfc, v.entries, key);
    WinnersAgree(nfc, v.entries, i, k);
    NormalFormExactly(nfc, v.entries[i].value, w.entries[j].value);
  }

  lemma WinnersAgree(nfc: string -> string, entries: seq<Entry>, i: int, k: int)
    requires Wins(nfc, entries, i) && Wins(nfc, entries, k) && nfc(entries[i].key) == nfc(entries[k].key)
    ensures i == k
  {
  }
}
