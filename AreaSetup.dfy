/** `Program.Configure` and `Program.ConfigureAreas`: the chosen profile's areas
    are numbered "001", "002", ... (LED areas first, then optics areas, each in
    declaration and list order), written to the reader, and recorded in the
    table of area results. */
module AreaSetup {
  import opened Outcomes
  import opened Text
  import opened Settings
  import opened Inputs
  import opened Areas
  import opened Commands
  import opened Channel

  /** The area numbers of the first `n` areas: "001" to `AreaNo(n)`. */
  function Numbers(n: nat): (r: seq<string>)
    ensures |r| == n
  {
    if n == 0 then [] else Numbers(n - 1) + [AreaNo(n)]
  }

  lemma {:induction false} NumbersAt(n: nat, i: nat)
    requires i < n
    ensures Numbers(n)[i] == AreaNo(i + 1)
  {
    var init := Numbers(n - 1);
    assert Numbers(n) == init + [AreaNo(n)];
    if i < n - 1 {
      NumbersAt(n - 1, i);
      assert Numbers(n)[i] == init[i];
    }
  }

  /** The areas of a profile in numbering order: LED areas then optics areas. */
  function Layout(l: LuminaryConfig): (r: seq<(string, AreaConfig)>)
    ensures |r| == TotalAreas(l.leds) + TotalAreas(l.optics)
  {
    Flatten(l.leds) + Flatten(l.optics)
  }

  /** The `WD` commands for `layout`, numbered from `start`. */
  function AreaCommands(layout: seq<(string, AreaConfig)>, start: nat): (r: seq<Command>)
    ensures |r| == |layout|
  {
    if layout == [] then []
    else
      var n := |layout|;
      AreaCommands(layout[..n - 1], start) + [DefineArea(start + n - 1, layout[n - 1].1)]
  }

  /** The three `WP` commands that end `Configure`, for `n` areas: the number of
      codes to read, the maximum number of DataMatrix codes, and permission for
      a reduced detection count. */
  function CountCommands(n: nat): seq<Command>
  {
    [SetParameter(250, n), SetParameter(253, n), SetParameter(251, 1)]
  }

  /** Every command `Configure` sends, in order, when none fails: the reset, the
      areas, then the counts for that many areas. */
  function ConfigCommands(l: LuminaryConfig): seq<Command>
  {
    [ResetAreas] + AreaCommands(Layout(l), 1) + CountCommands(|Layout(l)|)
  }

  /** `t` records `layout`: the i-th area is numbered i + 1, every number is a key
      once, and each key holds a distinct result for its area and the input's
      component for its item. */
  ghost predicate Recorded(t: AreaTable, layout: seq<(string, AreaConfig)>, cs: seq<Component>)
  {
    t.Valid() && t.nos == Numbers(|layout|) && Records(t, layout, cs)
  }

  /** The table before its last entry was added. */
  function Init(t: AreaTable): AreaTable
    requires |t.nos| > 0
  {
    AreaTable(t.nos[..|t.nos| - 1], t.results - {t.nos[|t.nos| - 1]})
  }

  /** `t` was built from the empty table by adding the areas of `layout` one at a
      time, each under the next number, with a new result for the area and its
      item's component. */
  ghost predicate Numbered(t: AreaTable, layout: seq<(string, AreaConfig)>, cs: seq<Component>)
    decreases |layout|
  {
    |t.nos| == |layout| &&
    if layout == [] then t.results == map[]
    else
      var n := |layout|;
      var no := t.nos[n - 1];
      var (item, area) := layout[n - 1];
      no == AreaNo(n) && no in t.results && Lookup(cs, item).Some? &&
      t.results[no].area == area && t.results[no].component == Lookup(cs, item).value &&
      t.results[no] !in Init(t).results.Values &&
      Numbered(Init(t), layout[..n - 1], cs)
  }

  /** The i-th number of `t` holds the i-th area of `layout` and its item's component. */
  ghost predicate Records(t: AreaTable, layout: seq<(string, AreaConfig)>, cs: seq<Component>)
  {
    |t.nos| == |layout| &&
    forall i :: 0 <= i < |layout| ==>
      t.nos[i] in t.results && Lookup(cs, layout[i].0).Some? &&
      t.results[t.nos[i]].area == layout[i].1 &&
      t.results[t.nos[i]].component == Lookup(cs, layout[i].0).value
  }

  /** No area of `t` has a code yet. */
  ghost predicate Unread(t: AreaTable)
    reads t.Objects()
  {
    forall no | no in t.results :: t.results[no].readCode == ""
  }

  // ---------------------------------------------------------------------------
  // Facts about the flattened layout

  lemma {:induction false} PairsAt(entry: (string, seq<AreaConfig>), a: nat, j: nat)
    requires j < a <= |entry.1|
    ensures Pairs(entry, a)[j] == (entry.0, entry.1[j])
  {
    if j < a - 1 {
      PairsAt(entry, a - 1, j);
    }
  }

  lemma FlattenStep(entries: ItemAreas, e: nat)
    requires e < |entries|
    ensures Flatten(entries[..e + 1]) == Flatten(entries[..e]) + Pairs(entries[e], |entries[e].1|)
  {
    assert entries[..e + 1][..e] == entries[..e];
  }

  lemma {:induction false} FlattenAppend(xs: ItemAreas, ys: ItemAreas)
    ensures Flatten(xs + ys) == Flatten(xs) + Flatten(ys)
    decreases |ys|
  {
    if ys != [] {
      var last := ys[|ys| - 1];
      assert (xs + ys)[..|xs + ys| - 1] == xs + ys[..|ys| - 1];
      FlattenAppend(xs, ys[..|ys| - 1]);
    } else {
      assert xs + ys == xs;
    }
  }

  /** The pairs of the first `e` entries come first in the flattened list. */
  lemma FlattenPrefix(entries: ItemAreas, e: nat)
    requires e <= |entries|
    ensures Flatten(entries[..e]) <= Flatten(entries)
  {
    assert entries == entries[..e] + entries[e..];
    FlattenAppend(entries[..e], entries[e..]);
  }

  /** Every area of the flattened list belongs to one of the entries' items. */
  lemma {:induction false} FlattenItems(entries: ItemAreas, k: nat)
    requires k < |Flatten(entries)|
    ensures exists i | 0 <= i < |entries| :: Flatten(entries)[k].0 == entries[i].0
    decreases |entries|
  {
    var init := entries[..|entries| - 1];
    if k < |Flatten(init)| {
      FlattenItems(init, k);
      var i :| 0 <= i < |init| && Flatten(init)[k].0 == init[i].0;
      assert entries[i] == init[i];
    } else {
      var last := entries[|entries| - 1];
      PairsAt(last, |last.1|, k - |Flatten(init)|);
      assert Flatten(entries)[k] == Pairs(last, |last.1|)[k - |Flatten(init)|];
    }
  }

  lemma {:induction false} AreaCommandsAppend(xs: seq<(string, AreaConfig)>, ys: seq<(string, AreaConfig)>, start: nat)
    ensures AreaCommands(xs + ys, start) == AreaCommands(xs, start) + AreaCommands(ys, start + |xs|)
    decreases |ys|
  {
    if ys == [] {
      assert xs + ys == xs;
    } else {
      var n := |ys|;
      assert (xs + ys)[..|xs + ys| - 1] == xs + ys[..n - 1];
      AreaCommandsAppend(xs, ys[..n - 1], start);
    }
  }

  /** The commands for a prefix of a layout are a prefix of its commands. */
  lemma AreaCommandsPrefix(xs: seq<(string, AreaConfig)>, ys: seq<(string, AreaConfig)>, start: nat)
    requires xs <= ys
    ensures AreaCommands(xs, start) <= AreaCommands(ys, start)
  {
    assert ys == xs + ys[|xs|..];
    AreaCommandsAppend(xs, ys[|xs|..], start);
  }

  lemma {:induction false} PairsPrefix(entry: (string, seq<AreaConfig>), a: nat, b: nat)
    requires a <= b <= |entry.1|
    ensures Pairs(entry, a) <= Pairs(entry, b)
    decreases b
  {
    if a < b {
      PairsPrefix(entry, a, b - 1);
    }
  }

  /** Sending the next command of a list extends the sent prefix by one. */
  lemma PrefixStep<T>(sent: seq<T>, xs: seq<T>, a: nat)
    requires a < |xs|
    ensures (sent + xs[..a]) + [xs[a]] == sent + xs[..a + 1]
  {
    assert xs[..a + 1] == xs[..a] + [xs[a]];
  }

  lemma PairsStep(before: seq<(string, AreaConfig)>, entry: (string, seq<AreaConfig>), a: nat)
    requires a < |entry.1|
    ensures (before + Pairs(entry, a)) + [(entry.0, entry.1[a])] == before + Pairs(entry, a + 1)
  {
    assert Pairs(entry, a + 1) == Pairs(entry, a) + [(entry.0, entry.1[a])];
  }

  /** A new number and a new object keep a table valid. */
  lemma ExtendValid(t: AreaTable, no: string, result: AreaResult)
    requires t.Valid() && no !in t.nos && result !in t.results.Values
    ensures AreaTable(t.nos + [no], t.results[no := result]).Valid()
  {
    var nos := t.nos + [no];
    var results := t.results[no := result];
    forall i, j | 0 <= i < j < |nos| ensures nos[i] != nos[j] {
      if j < |t.nos| {
        assert nos[i] == t.nos[i] && nos[j] == t.nos[j];
      }
    }
    forall k ensures k in results <==> k in nos {
      assert k in nos <==> k in t.nos || k == no;
    }
    forall i, j | 0 <= i < j < |nos| ensures results[nos[i]] != results[nos[j]] {
      assert t.results[t.nos[i]] in t.results.Values;
      if j < |t.nos| {
        assert nos[i] == t.nos[i] && nos[j] == t.nos[j];
      }
    }
  }

  /** The numbers already used are those of 1 ..|layout|. */
  lemma NextNumberIsNew(t: AreaTable, layout: seq<(string, AreaConfig)>, cs: seq<Component>)
    requires Recorded(t, layout, cs)
    ensures AreaNo(|layout| + 1) !in t.nos && AreaNo(|layout| + 1) !in t.results
  {
    var no := AreaNo(|layout| + 1);
    forall i | 0 <= i < |t.nos| ensures t.nos[i] != no {
      NumbersAt(|layout|, i);
      if t.nos[i] == no {
        AreaNoInjective(i + 1, |layout| + 1);
      }
    }
  }

  lemma ExtendRecords(t: AreaTable, layout: seq<(string, AreaConfig)>, cs: seq<Component>,
                      item: string, area: AreaConfig, no: string, result: AreaResult)
    requires Records(t, layout, cs) && no !in t.results
    requires Lookup(cs, item).Some? && result.area == area && result.component == Lookup(cs, item).value
    ensures Records(AreaTable(t.nos + [no], t.results[no := result]), layout + [(item, area)], cs)
  {
    var nos := t.nos + [no];
    var results := t.results[no := result];
    var l := layout + [(item, area)];
    forall i | 0 <= i < |l|
      ensures nos[i] in results && Lookup(cs, l[i].0).Some? && results[nos[i]].area == l[i].1 &&
        results[nos[i]].component == Lookup(cs, l[i].0).value
    {
      if i < |layout| {
        assert l[i] == layout[i] && nos[i] == t.nos[i];
      }
    }
  }

  /** A table built area by area is valid, numbered "001" onwards in order, and
      holds each area with its item's component. */
  lemma {:induction false} NumberedMeaning(t: AreaTable, layout: seq<(string, AreaConfig)>, cs: seq<Component>)
    requires Numbered(t, layout, cs)
    ensures Recorded(t, layout, cs)
    decreases |layout|
  {
    if layout == [] {
      assert t.nos == [];
    } else {
      var n := |layout|;
      var init := Init(t);
      var no := t.nos[n - 1];
      var (item, area) := layout[n - 1];
      NumberedMeaning(init, layout[..n - 1], cs);
      NextNumberIsNew(init, layout[..n - 1], cs);
      ExtendValid(init, no, t.results[no]);
      ExtendRecords(init, layout[..n - 1], cs, item, area, no, t.results[no]);
      DropLast(t.nos);
      RemoveRestore(t.results, no);
      DropLast(layout);
    }
  }

  /** The table with `result` added under the next number. */
  function Extend(t: AreaTable, result: AreaResult): AreaTable
  {
    AreaTable(t.nos + [AreaNo(|t.nos| + 1)], t.results[AreaNo(|t.nos| + 1) := result])
  }

  /** Every object of `t` is one of `s`. */
  ghost predicate AllIn(t: AreaTable, s: set<AreaResult>)
  {
    forall no | no in t.results :: t.results[no] in s
  }

  /** Recording one more area keeps the table numbered. */
  lemma NumberedExtend(t: AreaTable, layout: seq<(string, AreaConfig)>, cs: seq<Component>,
                       item: string, area: AreaConfig, result: AreaResult)
    requires Numbered(t, layout, cs)
    requires Lookup(cs, item).Some? && result !in t.results.Values
    requires result.area == area && result.component == Lookup(cs, item).value
    ensures Numbered(Extend(t, result), layout + [(item, area)], cs)
  {
    var no := AreaNo(|layout| + 1);
    var t2 := Extend(t, result);
    NumberedMeaning(t, layout, cs);
    NextNumberIsNew(t, layout, cs);
    AppendDrop(t.nos, no);
    AddRemove(t.results, no, result);
    assert Init(t2) == t;
    AppendDrop(layout, (item, area));
  }

  /** The position of the first failure inside a block of commands, seen from the whole. */
  lemma FailureInside(script: seq<Reply>, base: nat, before: nat, count: nat, total: nat)
    requires before + count <= total
    requires FirstFailure(script, base, before).None?
    requires FirstFailure(script, base + before, count).Some?
    ensures FirstFailure(script, base, total) == Some(before + FirstFailure(script, base + before, count).value)
  {
    FirstFailureSplit(script, base, before, count);
    FirstFailureSplit(script, base, before + count, total - (before + count));
  }

  // ---------------------------------------------------------------------------
  // The commands

  /** `areaResults[areaNo] = new AreaResult(area, input.Components[item])` for
      the next number of a numbered table. */
  method RecordArea(t: AreaTable, ghost layout: seq<(string, AreaConfig)>, cs: seq<Component>,
                    item: string, area: AreaConfig, ghost base: set<AreaResult>) returns (t2: AreaTable, ghost made: AreaResult)
    requires Numbered(t, layout, cs) && Unread(t) && Lookup(cs, item).Some? && AllIn(t, base)
    ensures Numbered(t2, layout + [(item, area)], cs) && Unread(t2)
    ensures fresh(made) && t2 == Extend(t, made) && AllIn(t2, base + {made})
  {
    var areaNo := AreaNo(|t.nos| + 1);
    var result := new AreaResult(area, Lookup(cs, item).value);
    made := result;
    NumberedExtend(t, layout, cs, item, area, result);
    t2 := AreaTable(t.nos + [areaNo], t.results[areaNo := result]);
    assert t2 == Extend(t, result);
    ExtendAllIn(t, base, result);
  }

  /** One pass of the inner loop of `ConfigureAreas`: defines `area` under the
      next number, then records it, unless the reader reports an error. */
  method DefineNext(reader: Reader, t: AreaTable, no: nat, ghost layout: seq<(string, AreaConfig)>, cs: seq<Component>,
                    item: string, area: AreaConfig, ghost base: set<AreaResult>) returns (r: Step<AreaTable>, ghost made: set<AreaResult>)
    requires Numbered(t, layout, cs) && Unread(t) && Lookup(cs, item).Some? && AllIn(t, base)
    requires no == |layout| + 1
    modifies reader
    ensures reader.sent == old(reader.sent) + [DefineArea(no, area)]
    ensures ReplyAt(reader.script, |old(reader.sent)|).error.Some? ==> r == Halt(CommandFailed(DefineArea(no, area)))
    ensures ReplyAt(reader.script, |old(reader.sent)|).error.None? ==> r.Done?
    ensures r.Done? ==> Numbered(r.value, layout + [(item, area)], cs)
    ensures r.Done? ==> Unread(r.value)
    ensures fresh(made) && (r.Done? ==> AllIn(r.value, base + made))
  {
    made := {};
    var res := Cmd(reader, DefineArea(no, area));
    if res.Halt? {
      return Halt(res.fault), made;
    }
    assert Unread(t);
    var t2;
    ghost var result;
    t2, result := RecordArea(t, layout, cs, item, area, base);
    made := {result};
    r := Done(t2);
  }

  lemma CommandsStep(entry: (string, seq<AreaConfig>), a: nat, start: nat, no: nat)
    requires a < |entry.1| && no == start + a
    ensures AreaCommands(Pairs(entry, a), start) + [DefineArea(no, entry.1[a])] == AreaCommands(Pairs(entry, a + 1), start)
  {
    AppendDrop(Pairs(entry, a), (entry.0, entry.1[a]));
  }

  /** The inner `foreach (var area in areas)` of `ConfigureAreas`, for one item:
      defines its areas under the numbers from `next` on, after the `before`
      areas already in `t0`, and records them; stops at the first command that fails. */
  method ConfigureItem(reader: Reader, entry: (string, seq<AreaConfig>), cs: seq<Component>, t0: AreaTable,
                       next: nat, ghost before: seq<(string, AreaConfig)>, ghost base: set<AreaResult>)
    returns (r: Step<AreaTable>, nextAreaNo: nat, ghost made: set<AreaResult>)
    requires Numbered(t0, before, cs) && Unread(t0) && next == |before| + 1 && AllIn(t0, base)
    requires entry.1 != [] ==> Lookup(cs, entry.0).Some?
    modifies reader
    ensures Outcome(reader.script, old(reader.sent), reader.sent, AreaCommands(Pairs(entry, |entry.1|), next), r)
    ensures r.Done? ==> Numbered(r.value, before + Pairs(entry, |entry.1|), cs)
    ensures r.Done? ==> Unread(r.value)
    ensures r.Done? ==> nextAreaNo == next + |entry.1|
    ensures (forall o {:trigger old(allocated(o))} | o in made :: !old(allocated(o))) && (r.Done? ==> AllIn(r.value, base + made))
  {
    made := {};
    ghost var log := reader.sent;
    ghost var all := AreaCommands(Pairs(entry, |entry.1|), next);
    var item := entry.0;
    var areas := entry.1;
    var t := t0;
    nextAreaNo := next;
    var a: nat := 0;
    AppendNothing(before);
    AppendNothing(log);
    while a < |areas|
      invariant 0 <= a <= |areas| && nextAreaNo == next + a
      invariant reader.sent == log + AreaCommands(Pairs(entry, a), next)
      invariant FirstFailure(reader.script, |log|, a).None?
      invariant Numbered(t, before + Pairs(entry, a), cs) && Unread(t)
      invariant (forall o {:trigger old(allocated(o))} | o in made :: !old(allocated(o))) && AllIn(t, base + made)
    {
      ghost var pre := reader.sent;
      var res;
      ghost var more;
      res, more := DefineNext(reader, t, nextAreaNo, before + Pairs(entry, a), cs, item, areas[a], base + made);
      CommandsStep(entry, a, next, nextAreaNo);
      if res.Halt? {
        PairsPrefix(entry, a + 1, |areas|);
        AreaCommandsPrefix(Pairs(entry, a + 1), Pairs(entry, |areas|), next);
        OutcomeStop(reader.script, log, pre, reader.sent, AreaCommands(Pairs(entry, a), next),
                    DefineArea(nextAreaNo, areas[a]), all, res);
        return res, nextAreaNo, made;
      }
      PassesAt(reader.script, |log|, a, |pre|);
      Associative(log, AreaCommands(Pairs(entry, a), next), [DefineArea(nextAreaNo, areas[a])]);
      AllInAssoc(res.value, base, made, more);
      made := made + more;
      t := res.value;
      PairsStep(before, entry, a);
      nextAreaNo := nextAreaNo + 1;
      a := a + 1;
    }
    assert a == |entry.1|;
    return Done(t), nextAreaNo, made;
  }

  /** The commands of one more item follow those of the items before it. */
  lemma GroupStep(entries: ItemAreas, e: nat, next: nat, no: nat)
    requires e < |entries| && no == next + |Flatten(entries[..e])|
    ensures AreaCommands(Flatten(entries[..e]), next) + AreaCommands(Pairs(entries[e], |entries[e].1|), no) ==
      AreaCommands(Flatten(entries[..e + 1]), next)
  {
    FlattenStep(entries, e);
    AreaCommandsAppend(Flatten(entries[..e]), Pairs(entries[e], |entries[e].1|), next);
  }

  /** The commands of the first items are a prefix of those of all of them. */
  lemma GroupPrefix(entries: ItemAreas, e: nat, next: nat)
    requires e <= |entries|
    ensures AreaCommands(Flatten(entries[..e]), next) <= AreaCommands(Flatten(entries), next)
  {
    FlattenPrefix(entries, e);
    AreaCommandsPrefix(Flatten(entries[..e]), Flatten(entries), next);
  }

  /** One pass of a `foreach (var kvp in luminary.Leds)` (or `Optics`) loop of
      `ConfigureAreas`: the areas of the `e`-th item, or the failure that stops them. */
  method GroupItem(reader: Reader, entries: ItemAreas, e: nat, cs: seq<Component>, t: AreaTable,
                   next: nat, ghost before: seq<(string, AreaConfig)>, ghost log: seq<Command>, ghost base: set<AreaResult>)
    returns (r: Step<AreaTable>, nextAreaNo: nat, ghost made: set<AreaResult>)
    requires e < |entries| && next == |before| + 1
    requires forall i :: 0 <= i < |entries| && entries[i].1 != [] ==> Lookup(cs, entries[i].0).Some?
    requires reader.sent == log + AreaCommands(Flatten(entries[..e]), next)
    requires FirstFailure(reader.script, |log|, |AreaCommands(Flatten(entries[..e]), next)|).None?
    requires Numbered(t, before + Flatten(entries[..e]), cs) && Unread(t) && AllIn(t, base)
    modifies reader
    ensures r.Halt? ==> Outcome(reader.script, log, reader.sent, AreaCommands(Flatten(entries), next), r)
    ensures r.Done? ==> reader.sent == log + AreaCommands(Flatten(entries[..e + 1]), next)
    ensures r.Done? ==> FirstFailure(reader.script, |log|, |AreaCommands(Flatten(entries[..e + 1]), next)|).None?
    ensures r.Done? ==> Numbered(r.value, before + Flatten(entries[..e + 1]), cs) && Unread(r.value)
    ensures r.Done? ==> nextAreaNo == next + |Flatten(entries[..e + 1])|
    ensures (forall o {:trigger old(allocated(o))} | o in made :: !old(allocated(o))) && (r.Done? ==> AllIn(r.value, base + made))
  {
    ghost var pre := reader.sent;
    ghost var done := AreaCommands(Flatten(entries[..e]), next);
    ghost var all := AreaCommands(Flatten(entries), next);
    ghost var okay: Step<()> := Done(());
    assert Outcome(reader.script, log, pre, done, okay);
    var no := next + |Flatten(entries[..e])|;
    r, nextAreaNo, made := ConfigureItem(reader, entries[e], cs, t, no, before + Flatten(entries[..e]), base);
    GroupStep(entries, e, next, no);
    OutcomeThen(reader.script, log, pre, reader.sent, done, AreaCommands(Pairs(entries[e], |entries[e].1|), no), okay, r);
    if r.Halt? {
      GroupPrefix(entries, e + 1, next);
      OutcomeHalted<AreaTable, AreaTable>(reader.script, log, reader.sent, AreaCommands(Flatten(entries[..e + 1]), next), all, r);
      return;
    }
    FlattenStep(entries, e);
    Associative(before, Flatten(entries[..e]), Pairs(entries[e], |entries[e].1|));
  }

  /** One `foreach (var kvp in luminary.Leds)` (or `Optics`) loop of
      `ConfigureAreas`: the areas of every item, in order, numbered from `next` on. */
  method ConfigureGroup(reader: Reader, entries: ItemAreas, cs: seq<Component>, t0: AreaTable,
                        next: nat, ghost before: seq<(string, AreaConfig)>, ghost base: set<AreaResult>)
    returns (r: Step<AreaTable>, nextAreaNo: nat, ghost made: set<AreaResult>)
    requires Numbered(t0, before, cs) && Unread(t0) && next == |before| + 1 && AllIn(t0, base)
    requires forall i :: 0 <= i < |entries| && entries[i].1 != [] ==> Lookup(cs, entries[i].0).Some?
    modifies reader
    ensures Outcome(reader.script, old(reader.sent), reader.sent, AreaCommands(Flatten(entries), next), r)
    ensures r.Done? ==> Numbered(r.value, before + Flatten(entries), cs)
    ensures r.Done? ==> Unread(r.value)
    ensures r.Done? ==> nextAreaNo == next + |Flatten(entries)|
    ensures (forall o {:trigger old(allocated(o))} | o in made :: !old(allocated(o))) && (r.Done? ==> AllIn(r.value, base + made))
  {
    made := {};
    ghost var log := reader.sent;
    var t := t0;
    nextAreaNo := next;
    var e: nat := 0;
    AppendNothing(before);
    AppendNothing(log);
    while e < |entries|
      invariant 0 <= e <= |entries| && nextAreaNo == next + |Flatten(entries[..e])|
      invariant reader.sent == log + AreaCommands(Flatten(entries[..e]), next)
      invariant FirstFailure(reader.script, |log|, |AreaCommands(Flatten(entries[..e]), next)|).None?
      invariant Numbered(t, before + Flatten(entries[..e]), cs) && Unread(t)
      invariant (forall o {:trigger old(allocated(o))} | o in made :: !old(allocated(o))) && AllIn(t, base + made)
    {
      var res;
      ghost var more;
      res, nextAreaNo, more := GroupItem(reader, entries, e, cs, t, next, before, log, base + made);
      if res.Halt? {
        made := made + more;
        return res, nextAreaNo, made;
      }
      AllInAssoc(res.value, base, made, more);
      made := made + more;
      t := res.value;
      e := e + 1;
    }
    assert entries[..e] == entries;
    return Done(t), nextAreaNo, made;
  }

  /** Every item of a profile that has areas is among the components. */
  ghost predicate ItemsPresent(l: LuminaryConfig, cs: seq<Component>)
  {
    (forall i :: 0 <= i < |l.leds| && l.leds[i].1 != [] ==> Lookup(cs, l.leds[i].0).Some?) &&
    (forall i :: 0 <= i < |l.optics| && l.optics[i].1 != [] ==> Lookup(cs, l.optics[i].0).Some?)
  }

  /** `ConfigureAreas()`: a new table, then the LED areas and the optics areas,
      numbered on from 1. */
  method ConfigureAreas(reader: Reader, l: LuminaryConfig, cs: seq<Component>) returns (r: Step<AreaTable>)
    requires ItemsPresent(l, cs)
    modifies reader
    ensures Outcome(reader.script, old(reader.sent), reader.sent, AreaCommands(Layout(l), 1), r)
    ensures r.Done? ==> Numbered(r.value, Layout(l), cs)
    ensures r.Done? ==> Unread(r.value)
    ensures r.Done? ==> fresh(r.value.Objects())
  {
    ghost var log := reader.sent;
    var areaResults := AreaTable([], map[]);
    var nextAreaNo := 1;
    var leds;
    ghost var made1, made2;
    leds, nextAreaNo, made1 := ConfigureGroup(reader, l.leds, cs, areaResults, nextAreaNo, [], {});
    AreaCommandsAppend(Flatten(l.leds), Flatten(l.optics), 1);
    if leds.Halt? {
      OutcomeHalted<AreaTable, AreaTable>(reader.script, log, reader.sent, AreaCommands(Flatten(l.leds), 1),
                                          AreaCommands(Layout(l), 1), leds);
      return leds;
    }
    ghost var mid := reader.sent;
    assert [] + Flatten(l.leds) == Flatten(l.leds);
    var optics;
    optics, nextAreaNo, made2 := ConfigureGroup(reader, l.optics, cs, leds.value, nextAreaNo, Flatten(l.leds), made1);
    OutcomeThen(reader.script, log, mid, reader.sent, AreaCommands(Flatten(l.leds), 1),
                AreaCommands(Flatten(l.optics), 1 + |Flatten(l.leds)|), leds, optics);
    if optics.Done? {
      var t := optics.value;
      forall o | o in t.Objects() ensures fresh(o) {
        var no :| no in t.results && t.results[no] == o;
        assert o in {} + made1 + made2;
        assert !old(allocated(o));
        assert allocated(o);
      }
    }
    return optics;
  }

  /** The last three commands of `Configure()`, for `count` areas. */
  method SetCounts(reader: Reader, t: AreaTable) returns (r: Step<AreaTable>)
    requires Unread(t)
    modifies reader
    ensures Outcome(reader.script, old(reader.sent), reader.sent, CountCommands(t.Count()), r)
    ensures r.Done? ==> r.value == t && Unread(t)
  {
    var count := t.Count();
    ghost var log := reader.sent;
    ghost var c1 := [SetParameter(250, count)];
    ghost var c2 := c1 + [SetParameter(253, count)];
    ghost var all := c2 + [SetParameter(251, 1)];
    assert all == CountCommands(count);
    PrefixOfAppend(c2, [SetParameter(251, 1)]);
    PrefixOfAppend(c1, [SetParameter(253, count)]);
    var res := Cmd(reader, SetParameter(250, count));
    if res.Halt? {
      OutcomeHalted<string, AreaTable>(reader.script, log, reader.sent, c1, all, res);
      return Halt(res.fault);
    }
    ghost var s1 := reader.sent;
    res := Cmd(reader, SetParameter(253, count));
    OutcomeThen(reader.script, log, s1, reader.sent, c1, [SetParameter(253, count)], Step<()>.Done(()), res);
    if res.Halt? {
      OutcomeHalted<string, AreaTable>(reader.script, log, reader.sent, c2, all, res);
      return Halt(res.fault);
    }
    ghost var s2 := reader.sent;
    res := Cmd(reader, SetParameter(251, 1));
    OutcomeThen(reader.script, log, s2, reader.sent, c2, [SetParameter(251, 1)], Step<()>.Done(()), res);
    if res.Halt? {
      OutcomeHalted<string, AreaTable>(reader.script, log, reader.sent, all, all, res);
      return Halt(res.fault);
    }
    OutcomeDone(reader.script, log, reader.sent, all, res, t);
    return Done(t);
  }

  /** `Configure()`: resets the areas, defines the profile's areas, then sets
      the counts for the number of areas in the table. */
  method Configure(reader: Reader, l: LuminaryConfig, cs: seq<Component>) returns (r: Step<AreaTable>)
    requires ItemsPresent(l, cs)
    modifies reader
    ensures Outcome(reader.script, old(reader.sent), reader.sent, ConfigCommands(l), r)
    ensures r.Done? ==> Numbered(r.value, Layout(l), cs)
    ensures r.Done? ==> Unread(r.value)
    ensures r.Done? ==> fresh(r.value.Objects())
  {
    ghost var log := reader.sent;
    ghost var c0 := [ResetAreas];
    ghost var c1 := c0 + AreaCommands(Layout(l), 1);
    ghost var all := c1 + CountCommands(|Layout(l)|);
    assert all == ConfigCommands(l);
    PrefixOfAppend(c1, CountCommands(|Layout(l)|));
    PrefixOfAppend(c0, AreaCommands(Layout(l), 1));

    var reset := Cmd(reader, ResetAreas);
    if reset.Halt? {
      OutcomeHalted<string, AreaTable>(reader.script, log, reader.sent, c0, all, reset);
      return Halt(reset.fault);
    }
    ghost var s1 := reader.sent;
    var configured := ConfigureAreas(reader, l, cs);
    OutcomeThen(reader.script, log, s1, reader.sent, c0, AreaCommands(Layout(l), 1), reset, configured);
    if configured.Halt? {
      OutcomeHalted<AreaTable, AreaTable>(reader.script, log, reader.sent, c1, all, configured);
      return configured;
    }
    ghost var s2 := reader.sent;
    assert configured.value.Count() == |Layout(l)|;
    r := SetCounts(reader, configured.value);
    OutcomeThen(reader.script, log, s2, reader.sent, c1, CountCommands(|Layout(l)|), configured, r);
  }

  // ---------------------------------------------------------------------------
  // Proof helpers: identities about sequences, maps and sets used above

  lemma DropLast<T>(s: seq<T>)
    requires |s| > 0
    ensures s[..|s| - 1] + [s[|s| - 1]] == s
  {
  }

  lemma Associative<T>(a: seq<T>, b: seq<T>, c: seq<T>)
    ensures (a + b) + c == a + (b + c)
  {
  }

  lemma AppendNothing<T>(s: seq<T>)
    ensures s + [] == s
  {
  }

  lemma AppendDrop<T>(s: seq<T>, x: T)
    ensures (s + [x])[..|s|] == s
  {
  }

  lemma RemoveRestore<K, V>(m: map<K, V>, k: K)
    requires k in m
    ensures (m - {k})[k := m[k]] == m
  {
  }

  lemma AddRemove<K, V>(m: map<K, V>, k: K, v: V)
    requires k !in m
    ensures m[k := v] - {k} == m
  {
  }

  lemma AllInAssoc(t: AreaTable, a: set<AreaResult>, b: set<AreaResult>, c: set<AreaResult>)
    requires AllIn(t, a + b + c)
    ensures AllIn(t, a + (b + c))
  {
  }

  lemma ExtendAllIn(t: AreaTable, s: set<AreaResult>, result: AreaResult)
    requires AllIn(t, s)
    ensures AllIn(Extend(t, result), s + {result})
  {
  }

  lemma PrefixOfAppend<T>(xs: seq<T>, ys: seq<T>)
    ensures xs <= xs + ys
  {
  }
}
