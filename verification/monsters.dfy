/** The monster directory (`DMSheet.reload`) and the lookups built on it: the
    `monster_dex` command and the three autocomplete filters. */
module Monsters {
  import opened Results
  import opened Text
  import opened Columns
  import opened Cells

  function Min(a: int, b: int): int {
    if a <= b then a else b
  }

  /** No later index below `n` holds the same key as index `i`. */
  predicate LastAt(keys: seq<string>, n: int, i: int)
    requires 0 <= i < |keys| && n <= |keys|
  {
    forall j :: i < j < n ==> keys[j] != keys[i]
  }

  /** The dict built from the first `n` pairs, inserted in order. */
  function ZipPrefix(keys: seq<string>, values: seq<string>, n: nat): (m: map<string, string>)
    requires n <= |keys| && n <= |values|
    ensures forall k :: k in m <==> exists i :: 0 <= i < n && keys[i] == k
    ensures forall i :: 0 <= i < n && LastAt(keys, n, i) ==> keys[i] in m && m[keys[i]] == values[i]
    decreases n
  {
    if n == 0 then map[]
    else
      var prev := ZipPrefix(keys, values, n - 1);
      ZipStepKeys(keys, n, prev, prev[keys[n - 1] := values[n - 1]]);
      ZipStepValues(keys, values, n, prev);
      prev[keys[n - 1] := values[n - 1]]
  }

  /** Inserting pair `n - 1` adds its key to the keys of the first `n - 1` pairs. */
  lemma ZipStepKeys(keys: seq<string>, n: nat, prev: map<string, string>, m: map<string, string>)
    requires 1 <= n <= |keys|
    requires forall k :: k in prev <==> exists i :: 0 <= i < n - 1 && keys[i] == k
    requires m.Keys == prev.Keys + {keys[n - 1]}
    ensures forall k :: k in m <==> exists i :: 0 <= i < n && keys[i] == k
  {
    forall k ensures k in m <==> exists i :: 0 <= i < n && keys[i] == k {
      if k in m {
        if k == keys[n - 1] {
          assert 0 <= n - 1 < n && keys[n - 1] == k;
        } else {
          var i :| 0 <= i < n - 1 && keys[i] == k;
          assert 0 <= i < n && keys[i] == k;
        }
      }
      if exists i :: 0 <= i < n && keys[i] == k {
        var i :| 0 <= i < n && keys[i] == k;
        if i < n - 1 {
          assert exists j :: 0 <= j < n - 1 && keys[j] == k;
        }
      }
    }
  }

  /** Inserting pair `n - 1` gives its key its value and leaves the other keys'
      last values alone. */
  lemma ZipStepValues(keys: seq<string>, values: seq<string>, n: nat, prev: map<string, string>)
    requires 1 <= n <= |keys| && n <= |values|
    requires forall i :: 0 <= i < n - 1 && LastAt(keys, n - 1, i) ==> keys[i] in prev && prev[keys[i]] == values[i]
    ensures var m := prev[keys[n - 1] := values[n - 1]];
            forall i :: 0 <= i < n && LastAt(keys, n, i) ==> keys[i] in m && m[keys[i]] == values[i]
  {
    var m := prev[keys[n - 1] := values[n - 1]];
    forall i | 0 <= i < n && LastAt(keys, n, i) ensures keys[i] in m && m[keys[i]] == values[i] {
      if i < n - 1 {
        assert keys[n - 1] != keys[i];
        assert LastAt(keys, n - 1, i);
      }
    }
  }

  /** `dict(zip(keys, values))`: the pairs are cut to the shorter list and
      inserted in order, so a repeated key keeps its last value. */
  function ZipDict(keys: seq<string>, values: seq<string>): (m: map<string, string>)
    ensures forall k :: k in m <==> exists i :: 0 <= i < Min(|keys|, |values|) && keys[i] == k
    ensures forall i :: 0 <= i < Min(|keys|, |values|) && LastAt(keys, Min(|keys|, |values|), i) ==>
              keys[i] in m && m[keys[i]] == values[i]
  {
    ZipPrefix(keys, values, Min(|keys|, |values|))
  }

  /** The loaded directory: the title-cased names in sheet order (the
      autocomplete list) and the name-to-description dict. */
  datatype MonsterDex = MonsterDex(names: seq<string>, monsters: map<string, string>)

  function TitleAll(names: seq<string>): seq<string> {
    seq(|names|, i requires 0 <= i < |names| => Title(names[i]))
  }

  /** The directory built from the name column and the description column. */
  function Directory(raw: seq<string>, descs: seq<string>): (dex: MonsterDex)
    ensures |dex.names| == |raw|
    ensures forall k :: k in dex.monsters ==> k in dex.names
    ensures forall i :: 0 <= i < |dex.names| ==> Title(dex.names[i]) == dex.names[i]
    ensures forall i :: 0 <= i < |raw| ==> dex.names[i] == Title(raw[i])
    ensures dex.monsters == ZipDict(dex.names, descs)
  {
    var names := TitleAll(raw);
    assert forall i :: 0 <= i < |names| ==> Title(names[i]) == names[i] by {
      forall i | 0 <= i < |names| ensures Title(names[i]) == names[i] {
        TitleIdempotent(raw[i]);
      }
    }
    MonsterDex(names, ZipDict(names, descs))
  }

  /** `DMSheet.reload` over the formatted grid of the MonsterDex tab. */
  function Reload(md: Snapshot): (r: Result<MonsterDex>)
    ensures r.Ok? ==> forall k :: k in r.value.monsters ==> k in r.value.names
    ensures r.Ok? ==> forall i :: 0 <= i < |r.value.names| ==> Title(r.value.names[i]) == r.value.names[i]
  {
    var raw :- ValueRange(md.values, "A2:A322");
    var descs :- ValueRange(md.values, "B2:B322");
    Ok(Directory(raw, descs))
  }

  /** The row numbers of the two range ends. */
  lemma DexRowNumbers()
    ensures DecimalValue("2") == 2 && DecimalValue("322") == 322
  {
  }

  /** The column numbers of the two columns read. */
  lemma DexColumnNumbers()
    ensures Letter2Num("A", false) == 1 && Letter2Num("B", false) == 2
  {
    assert Upper("A") == "A" && Upper("B") == "B";
  }

  /** The two ends of a one-column range from row 2 to row 322. */
  lemma DexRangeEnds(letter: string)
    requires |letter| >= 1 && AllUpper(letter)
    ensures A1ToRowCol(letter + "2") == Ok((2, Letter2Num(letter, false)))
    ensures A1ToRowCol(letter + "322") == Ok((322, Letter2Num(letter, false)))
  {
    A1ToRowColOf(letter, "2");
    A1ToRowColOf(letter, "322");
    DexRowNumbers();
  }

  /** A range that splits into those two ends covers rows 2 to 322 of the column. */
  lemma ParseDexRange(rng: string, letter: string, col: int)
    requires |letter| >= 1 && AllUpper(letter) && Letter2Num(letter, false) == col
    requires Split(rng, ':') == [letter + "2", letter + "322"]
    ensures ParseRange(rng) == Ok(Bounds(2, col, 322, col))
  {
    DexRangeEnds(letter);
  }

  /** The names range: column A, rows 2 to 322. */
  lemma ParseNamesRange()
    ensures ParseRange("A2:A322") == Ok(Bounds(2, 1, 322, 1))
  {
    assert Join(["A2", "A322"], ':') == "A2:A322";
    SplitJoin(["A2", "A322"], ':');
    DexColumnNumbers();
    assert "A" + "2" == "A2" && "A" + "322" == "A322";
    ParseDexRange("A2:A322", "A", 1);
  }

  /** The descriptions range: column B, rows 2 to 322. */
  lemma ParseDescriptionsRange()
    ensures ParseRange("B2:B322") == Ok(Bounds(2, 2, 322, 2))
  {
    assert Join(["B2", "B322"], ':') == "B2:B322";
    SplitJoin(["B2", "B322"], ':');
    DexColumnNumbers();
    assert "B" + "2" == "B2" && "B" + "322" == "B322";
    ParseDexRange("B2:B322", "B", 2);
  }

  /** Rows 2 to 322 of the grid that `reload` reads. */
  function DexRows(grid: Grid): seq<seq<string>> {
    PySlice(grid, 1, 322)
  }

  /** `reload` reads column A and column B of rows 2 to 322 and builds the
      directory from them, whatever the grid holds. */
  lemma ReloadReadsColumns(md: Snapshot)
    ensures Reload(md) == Ok(Directory(RangeValues(md.values, Bounds(2, 1, 322, 1)),
                                       RangeValues(md.values, Bounds(2, 2, 322, 2))))
  {
    ParseNamesRange();
    ParseDescriptionsRange();
    ValueRangeIsRangeValues(md.values, "A2:A322");
    ValueRangeIsRangeValues(md.values, "B2:B322");
  }

  /** Column `col` (1-based) of the directory rows, read by the range. */
  lemma DexColumn(grid: Grid, col: int)
    requires col == 1 || col == 2
    requires forall r :: 1 <= r < 322 && r < |grid| ==> |grid[r]| >= 2
    ensures var out, rows := RangeValues(grid, Bounds(2, col, 322, col)), DexRows(grid);
            && |out| == |rows|
            && forall i :: 0 <= i < |rows| ==> |rows[i]| >= 2 && out[i] == rows[i][col - 1]
  {
    var rows := DexRows(grid);
    assert forall i :: 0 <= i < |rows| ==> 1 + i < 322 && 1 + i < |grid| && rows[i] == grid[1 + i];
    ColumnRange(grid, Bounds(2, col, 322, col));
  }

  /** The directory lists the title-cased first cell of every row, in row
      order, and maps each name to the second cell of the last row carrying it. */
  ghost predicate ListsRows(dex: MonsterDex, rows: seq<seq<string>>) {
    && |dex.names| == |rows|
    && (forall i :: 0 <= i < |rows| ==> |rows[i]| >= 2 && dex.names[i] == Title(rows[i][0]))
    && (forall i :: 0 <= i < |rows| && LastAt(dex.names, |rows|, i) ==>
          dex.names[i] in dex.monsters && dex.monsters[dex.names[i]] == rows[i][1])
  }

  /** When every row from the second down to row 322 holds a name and a
      description, `reload` succeeds and its directory lists those rows. */
  lemma ReloadPairsRows(md: Snapshot)
    requires forall r :: 1 <= r < 322 && r < |md.values| ==> |md.values[r]| >= 2
    ensures Reload(md).Ok? && ListsRows(Reload(md).value, DexRows(md.values))
  {
    ReloadReadsColumns(md);
    DexColumn(md.values, 1);
    DexColumn(md.values, 2);
    DirectoryPairsRows(RangeValues(md.values, Bounds(2, 1, 322, 1)),
                       RangeValues(md.values, Bounds(2, 2, 322, 2)), DexRows(md.values));
  }

  lemma DirectoryPairsRows(raw: seq<string>, descs: seq<string>, rows: seq<seq<string>>)
    requires |raw| == |descs| == |rows|
    requires forall i :: 0 <= i < |rows| ==> |rows[i]| >= 2 && raw[i] == rows[i][0] && descs[i] == rows[i][1]
    ensures ListsRows(Directory(raw, descs), rows)
  {
    var dex := Directory(raw, descs);
    var names := TitleAll(raw);
    assert dex == MonsterDex(names, ZipDict(names, descs));
    var n := Min(|names|, |descs|);
    assert n == |rows|;
    forall i | 0 <= i < |rows| ensures dex.names[i] == Title(rows[i][0]) {
      assert names[i] == Title(raw[i]);
    }
    forall i | 0 <= i < |rows| && LastAt(dex.names, |rows|, i)
      ensures dex.names[i] in dex.monsters && dex.monsters[dex.names[i]] == rows[i][1]
    {
      assert LastAt(names, n, i);
      assert names[i] in dex.monsters && dex.monsters[names[i]] == descs[i];
    }
  }

  // ---------------------------------------------------------------------------
  // Lookup and autocomplete

  /** `monster_dex`: the query is title-cased and looked up; a missing name and
      an empty description both count as no entry. */
  function Lookup(dex: MonsterDex, query: string): (r: Option<string>)
    ensures r.Some? <==> Title(query) in dex.monsters && dex.monsters[Title(query)] != ""
    ensures r.Some? ==> r.value == dex.monsters[Title(query)]
  {
    var key := Title(query);
    if key in dex.monsters && dex.monsters[key] != "" then Some(dex.monsters[key]) else None
  }

  /** The lookup ignores the case of the query. */
  lemma LookupIgnoresCase(dex: MonsterDex, a: string, b: string)
    requires Lower(a) == Lower(b)
    ensures Lookup(dex, a) == Lookup(dex, b)
  {
    TitleIgnoresCase(a, b);
  }

  /** A query equal to a stored name up to title case finds that name's
      description whenever the description is not empty. */
  lemma LookupFindsStoredName(dex: MonsterDex, stored: string, query: string)
    requires stored in dex.monsters && Title(stored) == stored
    requires Title(query) == stored
    ensures Lookup(dex, query) == (if dex.monsters[stored] == "" then None else Some(dex.monsters[stored]))
  {
  }

  /** The items of `list` that contain `needle`, in order. */
  function Filter(list: seq<string>, needle: string): (r: seq<string>)
    ensures forall x :: multiset(r)[x] == if Contains(x, needle) then multiset(list)[x] else 0
    ensures |r| <= |list|
    decreases |list|
  {
    if |list| == 0 then []
    else
      var rest := Filter(list[1..], needle);
      assert list == [list[0]] + list[1..];
      if Contains(list[0], needle) then [list[0]] + rest else rest
  }

  /** An autocomplete filter: the whole list when Discord sends no value, and
      otherwise the items containing the title-cased value. */
  function Suggest(list: seq<string>, value: Option<string>): (r: seq<string>)
    ensures value.None? ==> r == list
    ensures value.Some? ==> forall x :: x in r <==> x in list && Contains(x, Title(value.value))
    ensures value.Some? ==> forall x :: multiset(r)[x] == if Contains(x, Title(value.value)) then multiset(list)[x] else 0
  {
    match value
    case None => list
    case Some(v) => Filter(list, Title(v))
  }

  /** `BASE_STATS`, offered for the modifier; `ROLLABLE_STATS` is the same list. */
  const BaseStats: seq<string> :=
    ["Undefined", "Strength", "Dexterity", "Constitution", "Intelligence", "Wisdom", "Charisma"]

  const RollableStats: seq<string> := BaseStats

  /** `monster_autocomplete` */
  function SuggestMonsters(dex: MonsterDex, value: Option<string>): (r: seq<string>)
    ensures value.None? ==> r == dex.names
    ensures value.Some? ==> forall x :: x in r <==> x in dex.names && Contains(x, Title(value.value))
  {
    Suggest(dex.names, value)
  }

  /** `stat_autocomplete` */
  function SuggestStats(value: Option<string>): (r: seq<string>)
    ensures value.None? ==> r == RollableStats
    ensures value.Some? ==> forall x :: x in r <==> x in RollableStats && Contains(x, Title(value.value))
  {
    Suggest(RollableStats, value)
  }

  /** `modifier_autocomplete` */
  function SuggestModifiers(value: Option<string>): (r: seq<string>)
    ensures value.None? ==> r == BaseStats
    ensures value.Some? ==> forall x :: x in r <==> x in BaseStats && Contains(x, Title(value.value))
  {
    Suggest(BaseStats, value)
  }

  /** The filter keeps the list's order: filtering a concatenation filters
      each part in turn. With `FilterOne` this fixes the result as a list,
      not only as a multiset. */
  lemma {:induction false} FilterKeepsOrder(a: seq<string>, b: seq<string>, needle: string)
    ensures Filter(a + b, needle) == Filter(a, needle) + Filter(b, needle)
    decreases |a|
  {
    if |a| == 0 {
      assert a + b == b;
    } else {
      var tail := a[1..];
      assert a == [a[0]] + tail;
      assert a + b == [a[0]] + (tail + b);
      FilterKeepsOrder(tail, b, needle);
      FilterCons(a[0], tail + b, needle);
      FilterCons(a[0], tail, needle);
      var ft, fb := Filter(tail, needle), Filter(b, needle);
      if Contains(a[0], needle) {
        ConsAssociates(a[0], ft, fb);
        assert Filter(a + b, needle) == [a[0]] + (ft + fb);
        assert Filter(a, needle) == [a[0]] + ft;
      } else {
        assert Filter(a + b, needle) == ft + fb;
        assert Filter(a, needle) == ft;
      }
    }
  }

  /** A single item is kept exactly when it contains the needle. */
  lemma FilterOne(x: string, needle: string)
    ensures Filter([x], needle) == if Contains(x, needle) then [x] else []
  {
    FilterCons(x, [], needle);
    assert [x] + [] == [x];
  }

  lemma ConsAssociates(x: string, t: seq<string>, f: seq<string>)
    ensures [x] + (t + f) == ([x] + t) + f
  {
  }

  lemma FilterCons(x: string, rest: seq<string>, needle: string)
    ensures Filter([x] + rest, needle) == if Contains(x, needle) then [x] + Filter(rest, needle) else Filter(rest, needle)
  {
    assert ([x] + rest)[1..] == rest;
  }

  /** An autocomplete offers its choices in list order: the suggestions for a
      concatenation are those for each part in turn, and a single item is
      offered exactly when it contains the title-cased value. */
  lemma SuggestKeepsOrder(a: seq<string>, b: seq<string>, value: Option<string>)
    ensures Suggest(a + b, value) == Suggest(a, value) + Suggest(b, value)
    ensures |a| == 1 && value.Some? ==>
              Suggest(a, value) == if Contains(a[0], Title(value.value)) then a else []
  {
    if value.Some? {
      FilterKeepsOrder(a, b, Title(value.value));
      if |a| == 1 {
        assert a == [a[0]];
        FilterOne(a[0], Title(value.value));
      }
    }
  }

  /** A string contains itself. */
  lemma ContainsSelf(s: string)
    ensures Contains(s, s)
  {
    assert OccursAt(s, s, 0);
  }

  /** In a directory whose names are all title-cased, a name is suggested for
      its own text, and looking up any suggestion finds exactly the entry
      stored under that suggestion. */
  lemma SuggestedNameLooksItselfUp(dex: MonsterDex, name: string)
    requires name in dex.names
    requires forall i :: 0 <= i < |dex.names| ==> Title(dex.names[i]) == dex.names[i]
    ensures name in SuggestMonsters(dex, Some(name))
    ensures forall s :: s in SuggestMonsters(dex, Some(name)) ==>
              Lookup(dex, s) == if s in dex.monsters && dex.monsters[s] != "" then Some(dex.monsters[s]) else None
  {
    var i :| 0 <= i < |dex.names| && dex.names[i] == name;
    assert Title(name) == name;
    ContainsSelf(name);
    forall s | s in SuggestMonsters(dex, Some(name))
      ensures Lookup(dex, s) == if s in dex.monsters && dex.monsters[s] != "" then Some(dex.monsters[s]) else None
    {
      var k :| 0 <= k < |dex.names| && dex.names[k] == s;
      assert Title(s) == s;
    }
  }

  /** The same for the directory `reload` builds, which `monster_dex` reads: each of its names is
      suggested for its own text, and choosing a suggestion looks up the entry
      stored under it. */
  lemma SuggestionLooksItselfUp(md: Snapshot, name: string)
    requires Reload(md).Ok? && name in Reload(md).value.names
    ensures name in SuggestMonsters(Reload(md).value, Some(name))
    ensures var dex := Reload(md).value;
            forall s :: s in SuggestMonsters(dex, Some(name)) ==>
              Lookup(dex, s) == if s in dex.monsters && dex.monsters[s] != "" then Some(dex.monsters[s]) else None
  {
    SuggestedNameLooksItselfUp(Reload(md).value, name);
  }

  /** Both stat lists offer each stat for any prefix of its name, typed in any
      case. */
  lemma StatSuggestedByPrefix(i: int, n: nat, typed: string)
    requires 0 <= i < |BaseStats| && n <= |BaseStats[i]|
    requires Title(BaseStats[i][..n]) == BaseStats[i][..n]
    requires Lower(typed) == Lower(BaseStats[i][..n])
    ensures BaseStats[i] in SuggestModifiers(Some(typed))
    ensures BaseStats[i] in SuggestStats(Some(typed))
  {
    var stat := BaseStats[i];
    assert OccursAt(stat, stat[..n], 0);
    TitleIgnoresCase(typed, stat[..n]);
  }
}
