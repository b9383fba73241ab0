/** The user-data store (`Data`): a map from user id to linked character sheet
    that writes itself to the YAML file after every fifth assignment, and
    whenever a save is forced. The file is modelled as the map it last
    received. */
module UserData {
  import opened Results
  import opened Characters

  /** The number of assignments that triggers a write. */
  const FlushEvery: nat := 5

  /** `entries` is the in-memory dict, `counter` the assignments since the last
      write, `file` the map last written and `writes` how many writes happened. */
  datatype Data<K(==), V> = Data(entries: map<K, V>, counter: nat, file: map<K, V>, writes: nat)

  /** The counter never reaches the flush threshold between operations. */
  predicate Valid<K(==), V>(d: Data<K, V>) {
    d.counter < FlushEvery
  }

  /** `Data()`: the dict starts as the file's contents, with no pending writes. */
  function Open<K(==), V>(file: map<K, V>): (d: Data<K, V>)
    ensures Valid(d) && d.entries == file && d.file == file
    ensures d.counter == 0 && d.writes == 0
  {
    Data(file, 0, file, 0)
  }

  /** Writing the whole dict to the file and resetting the counter. */
  function Flush<K(==), V>(d: Data<K, V>): Data<K, V> {
    d.(file := d.entries, counter := 0, writes := d.writes + 1)
  }

  /** `__setitem__`: count the assignment, store the value, and write the file
      once the count reaches five. */
  function Set<K(==), V>(d: Data<K, V>, key: K, value: V): (r: Data<K, V>)
    ensures r.entries == d.entries[key := value]
    ensures Valid(d) ==> Valid(r) && r.counter == (d.counter + 1) % FlushEvery
    ensures Valid(d) ==> r.writes == d.writes + (d.counter + 1) / FlushEvery
    ensures r.writes > d.writes ==> r.file == r.entries
    ensures r.writes == d.writes ==> r.file == d.file
  {
    var stored := d.(counter := d.counter + 1, entries := d.entries[key := value]);
    if stored.counter >= FlushEvery then Flush(stored) else stored
  }

  /** `force_save`: write now, whatever the count. */
  function ForceSave<K(==), V>(d: Data<K, V>): (r: Data<K, V>)
    ensures Valid(r) && r.counter == 0
    ensures r.file == r.entries && r.entries == d.entries
    ensures r.writes == d.writes + 1
  {
    Flush(d)
  }

  /** `del data[key]`: a key with no entry raises `KeyError`; otherwise the
      entry goes without counting an assignment, so the file keeps it until
      the next write. */
  function Delete<K(==), V>(d: Data<K, V>, key: K): (r: Result<Data<K, V>>)
    ensures r.Err? <==> key !in d.entries
    ensures r.Err? ==> r.error == MissingKey
    ensures r.Ok? ==> r.value.entries.Keys == d.entries.Keys - {key}
    ensures r.Ok? ==> forall k | k in r.value.entries :: r.value.entries[k] == d.entries[k]
    ensures r.Ok? ==> r.value.counter == d.counter && r.value.file == d.file && r.value.writes == d.writes
  {
    if key !in d.entries then Err(MissingKey) else Ok(d.(entries := d.entries - {key}))
  }

  /** `unlink`: an id with a sheet loses it (and the reply says so); an id
      without one changes nothing, so the `del` never raises. */
  function Unlink<K(==)>(d: Data<K, CharSheet>, acc: K): (r: (bool, Data<K, CharSheet>))
    ensures r.0 <==> acc in d.entries
    ensures !r.0 ==> r.1 == d
    ensures r.0 ==> Delete(d, acc) == Ok(r.1)
    ensures acc !in r.1.entries && r.1.entries.Keys == d.entries.Keys - {acc}
  {
    match Delete(d, acc)
    case Ok(rest) => (true, rest)
    case Err(_) => (false, d)
  }

  /** `new_sheet`: an id that already has a sheet is refused and nothing
      changes; otherwise the new sheet is stored and the file written at once. */
  function NewSheet<K(==)>(d: Data<K, CharSheet>, url: string, acc: K, prns: Option<string>, vrbs: Option<string>)
    : (r: (bool, Data<K, CharSheet>))
    ensures r.0 <==> acc !in d.entries
    ensures !r.0 ==> r.1 == d
    ensures r.0 ==> r.1.entries == d.entries[acc := NewCharSheet(url, prns, vrbs)]
    ensures r.0 ==> r.1.counter == 0 && r.1.file == r.1.entries
  {
    if acc in d.entries then (false, d)
    else (true, ForceSave(Set(d, acc, NewCharSheet(url, prns, vrbs))))
  }

  /** A run of assignments, in order. */
  function SetAll<K(==), V>(d: Data<K, V>, pairs: seq<(K, V)>): Data<K, V>
    decreases |pairs|
  {
    if |pairs| == 0 then d else SetAll(Set(d, pairs[0].0, pairs[0].1), pairs[1..])
  }

  lemma DivModStep(c: nat, m: nat)
    requires c < FlushEvery
    ensures (c + 1) / FlushEvery + ((c + 1) % FlushEvery + m) / FlushEvery == (c + 1 + m) / FlushEvery
    ensures ((c + 1) % FlushEvery + m) % FlushEvery == (c + 1 + m) % FlushEvery
  {
    if c + 1 == FlushEvery {
      assert (c + 1 + m) / FlushEvery == 1 + m / FlushEvery;
      assert (c + 1 + m) % FlushEvery == m % FlushEvery;
    }
  }

  /** The debouncing: `n` assignments from counter `c` write the file
      `(c + n) / 5` times and leave the counter at `(c + n) % 5`; whenever they
      leave it at 0, the file holds the final dict. */
  lemma {:induction false} SetAllCounts<K, V>(d: Data<K, V>, pairs: seq<(K, V)>)
    requires Valid(d)
    ensures var r := SetAll(d, pairs);
            && Valid(r)
            && r.counter == (d.counter + |pairs|) % FlushEvery
            && r.writes == d.writes + (d.counter + |pairs|) / FlushEvery
            && (|pairs| > 0 && r.counter == 0 ==> r.file == r.entries)
            && (r.writes == d.writes ==> r.file == d.file)
    decreases |pairs|
  {
    if |pairs| > 0 {
      var next := Set(d, pairs[0].0, pairs[0].1);
      SetAllCounts(next, pairs[1..]);
      DivModStep(d.counter, |pairs| - 1);
      if |pairs| == 1 && next.counter == 0 {
        assert next.writes > d.writes;
      }
    }
  }

  /** Five assignments from a fresh counter write the file exactly once, and
      the file then holds the dict as it is after the fifth; four do not
      write at all. */
  lemma FiveWritesFlushOnce<K, V>(d: Data<K, V>, pairs: seq<(K, V)>)
    requires d.counter == 0
    requires |pairs| == 4 || |pairs| == 5
    ensures |pairs| == 5 ==> SetAll(d, pairs).writes == d.writes + 1
                             && SetAll(d, pairs).file == SetAll(d, pairs).entries
                             && SetAll(d, pairs).counter == 0
    ensures |pairs| == 4 ==> SetAll(d, pairs).writes == d.writes && SetAll(d, pairs).file == d.file
                             && SetAll(d, pairs).counter == 4
  {
    SetAllCounts(d, pairs);
  }

  /** Forcing a save with two assignments pending writes them at once. */
  lemma ForceSaveMidWindow<K, V>(d: Data<K, V>)
    requires d.counter == 2
    ensures ForceSave(d).counter == 0 && ForceSave(d).file == d.entries
  {
  }

  /** Linking a sheet and then deleting it (as `link` does when the sheet turns
      out to be invalid) never raises `KeyError` and restores the dict, but the
      file written by `new_sheet` still holds the sheet until the next write. */
  lemma LinkThenDelete<K>(d: Data<K, CharSheet>, url: string, acc: K, prns: Option<string>, vrbs: Option<string>)
    requires acc !in d.entries
    ensures var linked := NewSheet(d, url, acc, prns, vrbs);
            var deleted := Delete(linked.1, acc);
            && linked.0
            && deleted.Ok?
            && deleted.value.entries == d.entries
            && acc in deleted.value.file
            && deleted.value.file[acc] == NewCharSheet(url, prns, vrbs)
  {
    var linked := NewSheet(d, url, acc, prns, vrbs);
    assert Delete(linked.1, acc).value.entries == d.entries;
  }

  /** Unlinking right after a link gives back the dict as it was. */
  lemma LinkThenUnlink<K>(d: Data<K, CharSheet>, url: string, acc: K, prns: Option<string>, vrbs: Option<string>)
    requires acc !in d.entries
    ensures var unlinked := Unlink(NewSheet(d, url, acc, prns, vrbs).1, acc);
            unlinked.0 && unlinked.1.entries == d.entries
  {
    LinkThenDelete(d, url, acc, prns, vrbs);
  }

  /** A second unlink finds nothing to remove. */
  lemma UnlinkTwice<K>(d: Data<K, CharSheet>, acc: K)
    ensures !Unlink(Unlink(d, acc).1, acc).0
    ensures Unlink(Unlink(d, acc).1, acc).1 == Unlink(d, acc).1
  {
  }

  /** A second link for the same id is refused, whatever its arguments. */
  lemma LinkTwiceRefused<K>(d: Data<K, CharSheet>, url: string, acc: K, url2: string,
                                prns: Option<string>, vrbs: Option<string>,
                                prns2: Option<string>, vrbs2: Option<string>)
    requires acc !in d.entries
    ensures var once := NewSheet(d, url, acc, prns, vrbs).1;
            !NewSheet(once, url2, acc, prns2, vrbs2).0
            && NewSheet(once, url2, acc, prns2, vrbs2).1 == once
  {
  }
}
