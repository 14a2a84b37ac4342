/**
 * The insertion-ordered map that holds the parsed settings: the
 * `IndexMap<String, String>` behind `NixConfig`. Insert overwrites the value
 * of a key already present without moving it and appends a new key at the
 * end; extend inserts another map's entries one by one, in that map's order.
 */
module IndexMaps {
  import opened Wrappers

  /**
   * `keys` lists each key once, in order of first insertion; `values` holds
   * the current value of every key.
   */
  datatype IndexMap = IndexMap(keys: seq<string>, values: map<string, string>)
  {
    ghost predicate Valid() {
      && (forall i, j :: 0 <= i < j < |keys| ==> keys[i] != keys[j])
      && (forall k :: k in values <==> k in keys)
    }

    /** `IndexMap::get`. */
    function Get(key: string): Option<string> {
      if key in values then Some(values[key]) else None
    }

    /** The entries in iteration order. */
    function Entries(): (entries: seq<(string, string)>)
      requires Valid()
      ensures |entries| == |keys|
      ensures forall i :: 0 <= i < |keys| ==> entries[i] == (keys[i], values[keys[i]])
    {
      EntriesOf(keys)
    }

    function EntriesOf(ks: seq<string>): (entries: seq<(string, string)>)
      requires forall k :: k in ks ==> k in values
      ensures |entries| == |ks|
      ensures forall i :: 0 <= i < |ks| ==> entries[i] == (ks[i], values[ks[i]])
    {
      if ks == [] then [] else [(ks[0], values[ks[0]])] + EntriesOf(ks[1..])
    }

    /** `IndexMap::insert`: overwrite in place, or append a new key. */
    function Insert(key: string, value: string): (r: IndexMap)
      requires Valid()
      ensures r.Valid()
      ensures r.Get(key) == Some(value)
      ensures forall k :: k != key ==> r.Get(k) == Get(k)
      ensures key in values ==> r.keys == keys
      ensures key !in values ==> r.keys == keys + [key]
    {
      IndexMap(if key in values then keys else keys + [key], values[key := value])
    }

    /** Inserts the entries one after another, in order. */
    function InsertAll(entries: seq<(string, string)>): (r: IndexMap)
      requires Valid()
      ensures r.Valid()
      ensures r.values == values + LastWins(entries)
      ensures r.keys == keys + FirstOccurrences(KeysOf(entries), values.Keys)
      decreases |entries|
    {
      if entries == [] then this
      else
        var next := Insert(entries[0].0, entries[0].1);
        InsertStep(entries);
        next.InsertAll(entries[1..])
    }

    /** One step of InsertAll moves the first entry from the list into the map. */
    lemma InsertStep(entries: seq<(string, string)>)
      requires Valid() && entries != []
      ensures values + LastWins(entries)
           == Insert(entries[0].0, entries[0].1).values + LastWins(entries[1..])
      ensures keys + FirstOccurrences(KeysOf(entries), values.Keys)
           == Insert(entries[0].0, entries[0].1).keys
              + FirstOccurrences(KeysOf(entries[1..]), Insert(entries[0].0, entries[0].1).values.Keys)
    {
      var k, v := entries[0].0, entries[0].1;
      InsertStepValues(k, v, LastWins(entries[1..]));
      assert KeysOf(entries) == [k] + KeysOf(entries[1..]);
      InsertStepKeys(k, v, KeysOf(entries[1..]));
    }

    lemma InsertStepValues(k: string, v: string, later: map<string, string>)
      ensures values + (map[k := v] + later) == values[k := v] + later
    {
    }

    lemma InsertStepKeys(k: string, v: string, later: seq<string>)
      requires Valid()
      ensures keys + FirstOccurrences([k] + later, values.Keys)
           == Insert(k, v).keys + FirstOccurrences(later, Insert(k, v).values.Keys)
    {
      assert ([k] + later)[1..] == later;
      if k in values {
        assert values[k := v].Keys == values.Keys;
      } else {
        assert values[k := v].Keys == values.Keys + {k};
      }
    }

    /** `IndexMap::extend`: every entry of `other`, inserted in `other`'s order. */
    function Extend(other: IndexMap): (r: IndexMap)
      requires Valid() && other.Valid()
      ensures r.Valid()
      ensures r.values == values + other.values
      ensures r.keys == keys + FirstOccurrences(other.keys, values.Keys)
    {
      var entries := other.Entries();
      EntriesOfKeys(other, other.keys);
      other.LastWinsOfEntries(other.keys);
      assert other.values == map k | k in other.keys :: other.values[k];
      InsertAll(entries)
    }

    lemma {:induction false} LastWinsOfEntries(ks: seq<string>)
      requires forall k :: k in ks ==> k in values
      ensures LastWins(EntriesOf(ks)) == map k | k in ks :: values[k]
    {
      if ks != [] {
        LastWinsOfEntries(ks[1..]);
        assert EntriesOf(ks)[1..] == EntriesOf(ks[1..]);
      }
    }
  }

  /** A map with no entries (`IndexMap::new`). */
  function Empty(): (m: IndexMap)
    ensures m.Valid()
    ensures m.keys == []
    ensures forall k :: m.Get(k) == None
  {
    IndexMap([], map[])
  }

  /** The keys of a list of entries, in order. */
  function KeysOf(entries: seq<(string, string)>): seq<string> {
    if entries == [] then [] else [entries[0].0] + KeysOf(entries[1..])
  }

  /** The map a list of entries denotes when a later entry overrides an earlier one. */
  function LastWins(entries: seq<(string, string)>): map<string, string> {
    if entries == [] then map[]
    else map[entries[0].0 := entries[0].1] + LastWins(entries[1..])
  }

  /** The keys of `ks` not in `seen`, each once, in order of first occurrence. */
  function FirstOccurrences(ks: seq<string>, seen: set<string>): (r: seq<string>)
    ensures forall i :: 0 <= i < |r| ==> r[i] in ks && r[i] !in seen
    ensures forall i, j :: 0 <= i < j < |r| ==> r[i] != r[j]
    ensures forall k :: k in ks && k !in seen ==> k in r
  {
    if ks == [] then []
    else if ks[0] in seen then FirstOccurrences(ks[1..], seen)
    else [ks[0]] + FirstOccurrences(ks[1..], seen + {ks[0]})
  }

  lemma EntriesOfKeys(m: IndexMap, ks: seq<string>)
    requires forall k :: k in ks ==> k in m.values
    ensures KeysOf(m.EntriesOf(ks)) == ks
  {
    if ks != [] {
      EntriesOfKeys(m, ks[1..]);
      assert m.EntriesOf(ks)[1..] == m.EntriesOf(ks[1..]);
    }
  }

  /** A key of a valid map is never listed twice, so a key present keeps its position. */
  lemma {:induction false} FirstOccurrencesOfDistinct(ks: seq<string>, seen: set<string>)
    requires forall i, j :: 0 <= i < j < |ks| ==> ks[i] != ks[j]
    requires forall k :: k in ks ==> k !in seen
    ensures FirstOccurrences(ks, seen) == ks
  {
    if ks != [] {
      FirstOccurrencesOfDistinct(ks[1..], seen + {ks[0]});
    }
  }
}
