/** The run's input (`Input`): the operation, the bank, the luminary name and the
    component table, built from the command-line pairs and from decoded input files. */
module Inputs {
  import opened Outcomes
  import opened Text

  /** `Input.Component`: an expected part. */
  datatype Component = Component(item: string, material: string, quantity: int)
  {
    /** `ToString()`: `Item/Material/Quantity`. */
    function ToString(): string
    {
      item + "/" + material + "/" + IntToString(quantity)
    }
  }

  /** A decoded input file (`Input.InputJson`) with every field present;
      reading and JSON decoding are not modelled. */
  datatype InputJson = InputJson(bank: int, luminary: string, components: seq<Component>)

  /** The fields of an `Input` object. `components` is the `Components` dictionary:
      entries keyed by their item, in insertion order. */
  datatype InputState = InputState(operation: string, bank: int, luminary: string, components: seq<Component>)

  /** The field initialisers of `Input`. */
  const Initial: InputState := InputState("trigger", -1, "", [])

  /** The message of the exception `int.Parse` throws on .NET before version 8
      (.NET 8 and later name the offending value in it). */
  const FormatError: string := "Input string was not in a correct format."

  // ---------------------------------------------------------------------------
  // The component table

  predicate DistinctItems(cs: seq<Component>)
  {
    forall i, j :: 0 <= i < j < |cs| ==> cs[i].item != cs[j].item
  }

  /** `Components.ContainsKey(item)` and `Components[item]`. */
  function Lookup(cs: seq<Component>, item: string): (r: Option<Component>)
    ensures r.Some? ==> r.value.item == item && r.value in cs
    ensures r.None? <==> forall i :: 0 <= i < |cs| ==> cs[i].item != item
  {
    if cs == [] then None
    else if cs[0].item == item then Some(cs[0])
    else Lookup(cs[1..], item)
  }

  /** `Components[c.Item] = c`: replaces the entry with the same item in its
      place, or appends a new entry. */
  function Put(cs: seq<Component>, c: Component): seq<Component>
  {
    if cs == [] then [c]
    else if cs[0].item == c.item then [c] + cs[1..]
    else [cs[0]] + Put(cs[1..], c)
  }

  /** After `Put`, the item maps to the new component and every other item to what it did. */
  lemma {:induction false} PutLookup(cs: seq<Component>, c: Component, item: string)
    ensures Lookup(Put(cs, c), item) == if item == c.item then Some(c) else Lookup(cs, item)
  {
    if cs != [] && cs[0].item != c.item {
      PutLookup(cs[1..], c, item);
    }
  }

  /** `Put` keeps the items distinct, appends a new item at the end and replaces an
      existing one in place, leaving every other entry where it was. */
  lemma {:induction false} PutShape(cs: seq<Component>, c: Component)
    requires DistinctItems(cs)
    ensures DistinctItems(Put(cs, c))
    ensures Lookup(cs, c.item).None? ==> Put(cs, c) == cs + [c]
    ensures Lookup(cs, c.item).Some? ==>
      |Put(cs, c)| == |cs| &&
      forall i :: 0 <= i < |cs| ==> Put(cs, c)[i] == if cs[i].item == c.item then c else cs[i]
  {
    if cs != [] {
      if cs[0].item == c.item {
        assert Lookup(cs[1..], c.item).None?;
        assert forall i :: 0 < i < |cs| ==> cs[i].item != c.item;
      } else {
        assert DistinctItems(cs[1..]);
        PutShape(cs[1..], c);
        var r := Put(cs, c);
        assert r == [cs[0]] + Put(cs[1..], c);
        forall i, j | 0 <= i < j < |r| ensures r[i].item != r[j].item {
          if i == 0 {
            PutLookup(cs[1..], c, cs[0].item);
            assert Lookup(cs[1..], cs[0].item).None?;
            assert r[j] in Put(cs[1..], c);
          }
        }
      }
    }
  }

  /** The checks of `AddComponent(Component)`: item `^[0-9]{1,4}$`, material
      `^[0-9]{1,12}$`, positive quantity. */
  predicate IsValidComponent(c: Component)
  {
    MatchesDigits(c.item, 1, 4) && MatchesDigits(c.material, 1, 12) && c.quantity > 0
  }

  /** The message of the first check `c` fails, if any. */
  function ComponentError(c: Component): (r: Option<string>)
    ensures r.None? <==> IsValidComponent(c)
  {
    if !MatchesDigits(c.item, 1, 4) then Some("Invalid component item [" + c.ToString() + "].")
    else if !MatchesDigits(c.material, 1, 12) then Some("Invalid component material [" + c.ToString() + "].")
    else if c.quantity <= 0 then Some("Invalid component quantity [" + c.ToString() + "].")
    else None
  }

  /** `AddComponent(Component)` on the table's value. */
  function Insert(cs: seq<Component>, c: Component): Result<seq<Component>>
  {
    match ComponentError(c)
    case Some(m) => Err(m)
    case None => Ok(Put(cs, c))
  }

  /** Adding components one after the other, stopping at the first rejected one. */
  function InsertAll(cs: seq<Component>, list: seq<Component>): Result<seq<Component>>
    decreases |list|
  {
    if list == [] then Ok(cs)
    else
      match Insert(cs, list[0])
      case Err(m) => Err(m)
      case Ok(next) => InsertAll(next, list[1..])
  }

  /** Every stored component passed the checks, and no item is stored twice. */
  predicate WellFormed(cs: seq<Component>)
  {
    DistinctItems(cs) && forall i :: 0 <= i < |cs| ==> IsValidComponent(cs[i])
  }

  lemma InsertKeepsWellFormed(cs: seq<Component>, c: Component)
    requires WellFormed(cs) && Insert(cs, c).Ok?
    ensures WellFormed(Insert(cs, c).value)
  {
    PutShape(cs, c);
  }

  lemma {:induction false} InsertAllKeepsWellFormed(cs: seq<Component>, list: seq<Component>)
    requires WellFormed(cs) && InsertAll(cs, list).Ok?
    ensures WellFormed(InsertAll(cs, list).value)
    decreases |list|
  {
    if list != [] {
      InsertKeepsWellFormed(cs, list[0]);
      InsertAllKeepsWellFormed(Insert(cs, list[0]).value, list[1..]);
    }
  }

  /** Valid components with new, distinct items are appended in source order. */
  lemma {:induction false} InsertAllAppends(cs: seq<Component>, list: seq<Component>)
    requires DistinctItems(cs + list)
    requires forall i :: 0 <= i < |list| ==> IsValidComponent(list[i])
    ensures InsertAll(cs, list) == Ok(cs + list)
    decreases |list|
  {
    if list != [] {
      assert DistinctItems(cs) by {
        forall i, j | 0 <= i < j < |cs| ensures cs[i].item != cs[j].item {
          assert (cs + list)[i] == cs[i] && (cs + list)[j] == cs[j];
        }
      }
      assert Lookup(cs, list[0].item).None? by {
        forall i | 0 <= i < |cs| ensures cs[i].item != list[0].item {
          assert (cs + list)[i] == cs[i] && (cs + list)[|cs|] == list[0];
        }
      }
      PutShape(cs, list[0]);
      assert Insert(cs, list[0]) == Ok(cs + [list[0]]);
      assert (cs + [list[0]]) + list[1..] == cs + list;
      InsertAllAppends(cs + [list[0]], list[1..]);
      assert InsertAll(cs, list) == InsertAll(cs + [list[0]], list[1..]);
    } else {
      assert cs + list == cs;
    }
  }

  // ---------------------------------------------------------------------------
  // Parsing a component argument

  /** `AddComponent(string)` up to the checks: the text is split on '/'; the item
      is part 0, the material part 1 or "", the quantity part 2 parsed or 1. */
  function ParseComponent(arg: string): Result<Component>
  {
    var parts := Split(arg, '/');
    var item := parts[0];
    var material := if |parts| > 1 then parts[1] else "";
    if |parts| > 2 then
      match ParseInt32(parts[2])
      case None => Err(FormatError)
      case Some(q) => Ok(Component(item, material, q))
    else
      Ok(Component(item, material, 1))
  }

  /** Reading back the text `ToString()` writes gives the same component. */
  lemma ParseComponentRoundTrip(c: Component)
    requires '/' !in c.item && '/' !in c.material && IsInt32(c.quantity)
    ensures ParseComponent(c.ToString()) == Ok(c)
  {
    var q := IntToString(c.quantity);
    assert '/' !in q by {
      if c.quantity < 0 {
        assert q == "-" + NatToString(-c.quantity);
        assert forall i :: 0 <= i < |q| ==> q[i] == '-' || IsDigit(q[i]);
      } else {
        assert AllDigits(q);
      }
    }
    SplitThree(c.item, c.material, q, '/');
    assert c.ToString() == c.item + ['/'] + c.material + ['/'] + q;
    ParseInt32RoundTrip(c.quantity);
  }

  /** Without a quantity part the quantity is 1, without a material part the material is "". */
  lemma ParseComponentDefaults(item: string, material: string)
    requires '/' !in item && '/' !in material
    ensures ParseComponent(item) == Ok(Component(item, "", 1))
    ensures ParseComponent(item + "/" + material) == Ok(Component(item, material, 1))
  {
    SplitJoin([item], '/');
    var parts := [item, material];
    assert Join(parts, '/') == item + "/" + material by {
      assert Join(parts[1..], '/') == material;
    }
    SplitJoin(parts, '/');
  }

  // ---------------------------------------------------------------------------
  // Merging a decoded input file and the argument pairs

  /** The merge of `ReadFromFile`: the file's bank when it is not negative, its
      luminary when it is not empty, then its components one by one. */
  function Merge(st: InputState, source: InputJson): Result<InputState>
  {
    var bank := if source.bank >= 0 then source.bank else st.bank;
    var luminary := if source.luminary != "" then source.luminary else st.luminary;
    match InsertAll(st.components, source.components)
    case Err(m) => Err(m)
    case Ok(cs) => Ok(InputState(st.operation, bank, luminary, cs))
  }

  /** The argument keys, with their aliases merged. */
  datatype Key = ConfigFileKey | OperationKey | BankKey | LuminaryKey | ComponentKey

  function KeyOf(k: string): Option<Key>
  {
    if k == "--config" || k == "--f" then Some(ConfigFileKey)
    else if k == "--operation" || k == "--op" then Some(OperationKey)
    else if k == "--bank" || k == "--b" then Some(BankKey)
    else if k == "--luminary" || k == "--l" then Some(LuminaryKey)
    else if k == "--component" || k == "--bom" then Some(ComponentKey)
    else None
  }

  /** The message for an input file that cannot be read: the wording of
      `FileNotFoundException`, with the path as the argument gave it (.NET
      reports the full path). */
  function MissingFile(path: string): string
  {
    "Could not find file '" + path + "'."
  }

  /** The bank a (key, value) pair sets, if it sets one: `--b` with a number,
      or `--config` naming a file whose bank is not negative. */
  function BankSet(k: string, v: string, files: map<string, InputJson>): Option<int>
  {
    if KeyOf(k) == Some(BankKey) then ParseInt32(v)
    else if KeyOf(k) == Some(ConfigFileKey) && v in files && files[v].bank >= 0 then Some(files[v].bank)
    else None
  }

  /** The luminary a (key, value) pair sets, if it sets one: `--l`, or
      `--config` naming a file whose luminary is not empty. */
  function LuminarySet(k: string, v: string, files: map<string, InputJson>): Option<string>
  {
    if KeyOf(k) == Some(LuminaryKey) then Some(v)
    else if KeyOf(k) == Some(ConfigFileKey) && v in files && files[v].luminary != "" then Some(files[v].luminary)
    else None
  }

  /** One (key, value) pair of `CreateFromArgs`; `files` holds the decoded input files by path. */
  function ApplyArg(st: InputState, k: string, v: string, files: map<string, InputJson>): (r: Result<InputState>)
    ensures KeyOf(k).None? ==> r == Err("Unknown argument: [" + k + "].")
    ensures r.Ok? && KeyOf(k) != Some(OperationKey) ==> r.value.operation == st.operation
  {
    match KeyOf(k)
    case None => Err("Unknown argument: [" + k + "].")
    case Some(ConfigFileKey) => if v in files then Merge(st, files[v]) else Err(MissingFile(v))
    case Some(OperationKey) => Ok(st.(operation := v))
    case Some(BankKey) =>
      (match ParseInt32(v)
       case None => Err(FormatError)
       case Some(b) => Ok(st.(bank := b)))
    case Some(LuminaryKey) => Ok(st.(luminary := v))
    case Some(ComponentKey) =>
      match ParseComponent(v)
      case Err(m) => Err(m)
      case Ok(c) =>
        match Insert(st.components, c)
        case Err(m) => Err(m)
        case Ok(cs) => Ok(st.(components := cs))
  }

  /** What one pair does: a missing file and a bank that does not parse are
      errors; `--op` and `--l` always succeed; and each field changes only
      through the pairs that set it. */
  lemma ApplyArgMeaning(st: InputState, k: string, v: string, files: map<string, InputJson>)
    ensures var r := ApplyArg(st, k, v, files);
      (KeyOf(k) == Some(ConfigFileKey) && v !in files ==> r == Err(MissingFile(v))) &&
      (KeyOf(k) == Some(BankKey) ==> (r.Ok? <==> ParseInt32(v).Some?) && (r.Err? ==> r.message == FormatError)) &&
      (KeyOf(k) == Some(OperationKey) || KeyOf(k) == Some(LuminaryKey) ==> r.Ok?)
    ensures var r := ApplyArg(st, k, v, files);
      r.Ok? ==> r.value.operation == if KeyOf(k) == Some(OperationKey) then v else st.operation
    ensures var r := ApplyArg(st, k, v, files);
      r.Ok? ==> r.value.bank == match BankSet(k, v, files) case Some(b) => b case None => st.bank
    ensures var r := ApplyArg(st, k, v, files);
      r.Ok? ==> r.value.luminary == match LuminarySet(k, v, files) case Some(n) => n case None => st.luminary
    ensures var r := ApplyArg(st, k, v, files);
      r.Ok? && KeyOf(k) == Some(ComponentKey) ==>
      ParseComponent(v).Ok? && r.value.components == Put(st.components, ParseComponent(v).value)
    ensures var r := ApplyArg(st, k, v, files);
      r.Ok? && KeyOf(k) != Some(ComponentKey) && KeyOf(k) != Some(ConfigFileKey) ==>
      r.value.components == st.components
  {
  }

  /** The loop of `CreateFromArgs` from index `i`: pairs at even indices while `i < |args| - 1`. */
  function ArgLoop(st: InputState, args: seq<string>, i: nat, files: map<string, InputJson>): Result<InputState>
    decreases |args| - i
  {
    if i < |args| - 1 then
      match ApplyArg(st, args[i], args[i + 1], files)
      case Err(m) => Err(m)
      case Ok(next) => ArgLoop(next, args, i + 2, files)
    else
      Ok(st)
  }

  function ParseArgs(args: seq<string>, files: map<string, InputJson>): Result<InputState>
  {
    ArgLoop(Initial, args, 0, files)
  }

  /** A trailing argument without a value is ignored. */
  lemma {:induction false} TrailingArgumentIgnored(st: InputState, args: seq<string>, x: string, i: nat, files: map<string, InputJson>)
    requires |args| % 2 == 0 && i % 2 == 0
    ensures ArgLoop(st, args + [x], i, files) == ArgLoop(st, args, i, files)
    decreases |args| - i
  {
    if i < |args| - 1 {
      var ys := args + [x];
      assert ys[i] == args[i] && ys[i + 1] == args[i + 1];
      var r := ApplyArg(st, args[i], args[i + 1], files);
      ArgLoopStep(st, ys, i, files, r);
      ArgLoopStep(st, args, i, files, r);
      if r.Ok? {
        TrailingArgumentIgnored(r.value, args, x, i + 2, files);
      }
    } else {
      EvenPastEnd(i, |args|);
    }
  }

  /** One turn of the loop: the pair at `i` is applied, then the loop goes on or stops. */
  lemma ArgLoopStep(st: InputState, args: seq<string>, i: nat, files: map<string, InputJson>, r: Result<InputState>)
    requires i < |args| - 1 && r == ApplyArg(st, args[i], args[i + 1], files)
    ensures ArgLoop(st, args, i, files) == if r.Err? then Err(r.message) else ArgLoop(r.value, args, i + 2, files)
  {
  }

  lemma EvenPastEnd(i: nat, n: nat)
    requires i % 2 == 0 && n % 2 == 0 && !(i < n - 1)
    ensures i >= n
  {
  }

  /** The value of the last pair at or after `i` whose key is an alias of `key`, or `current`. */
  function LastValue(args: seq<string>, i: nat, key: Key, current: string): string
    decreases |args| - i
  {
    if i < |args| - 1 then
      LastValue(args, i + 2, key, if KeyOf(args[i]) == Some(key) then args[i + 1] else current)
    else
      current
  }

  /** The operation is the value of the last `--op`/`--operation` pair, "trigger" without one. */
  lemma {:induction false} LastOperationWins(st: InputState, args: seq<string>, i: nat, files: map<string, InputJson>)
    requires ArgLoop(st, args, i, files).Ok?
    ensures ArgLoop(st, args, i, files).value.operation == LastValue(args, i, OperationKey, st.operation)
    decreases |args| - i
  {
    if i < |args| - 1 {
      var next := ApplyArg(st, args[i], args[i + 1], files).value;
      assert next.operation == if KeyOf(args[i]) == Some(OperationKey) then args[i + 1] else st.operation;
      LastOperationWins(next, args, i + 2, files);
    }
  }

  /** The value of the last pair at or after `i` that sets the bank, or `current`. */
  function LastBank(args: seq<string>, i: nat, files: map<string, InputJson>, current: int): int
    decreases |args| - i
  {
    if i < |args| - 1 then
      LastBank(args, i + 2, files, match BankSet(args[i], args[i + 1], files) case Some(b) => b case None => current)
    else
      current
  }

  /** The value of the last pair at or after `i` that sets the luminary, or `current`. */
  function LastLuminary(args: seq<string>, i: nat, files: map<string, InputJson>, current: string): string
    decreases |args| - i
  {
    if i < |args| - 1 then
      LastLuminary(args, i + 2, files, match LuminarySet(args[i], args[i + 1], files) case Some(n) => n case None => current)
    else
      current
  }

  /** The bank is the value of the last `--b`/`--bank` pair or of the last input
      file with a bank that is not negative, whichever comes later; -1 without one. */
  lemma {:induction false} LastBankWins(st: InputState, args: seq<string>, i: nat, files: map<string, InputJson>)
    requires ArgLoop(st, args, i, files).Ok?
    ensures ArgLoop(st, args, i, files).value.bank == LastBank(args, i, files, st.bank)
    decreases |args| - i
  {
    if i < |args| - 1 {
      ApplyArgMeaning(st, args[i], args[i + 1], files);
      var next := ApplyArg(st, args[i], args[i + 1], files).value;
      LastBankWins(next, args, i + 2, files);
    }
  }

  /** The luminary is the value of the last `--l`/`--luminary` pair or of the
      last input file with a luminary, whichever comes later; "" without one. */
  lemma {:induction false} LastLuminaryWins(st: InputState, args: seq<string>, i: nat, files: map<string, InputJson>)
    requires ArgLoop(st, args, i, files).Ok?
    ensures ArgLoop(st, args, i, files).value.luminary == LastLuminary(args, i, files, st.luminary)
    decreases |args| - i
  {
    if i < |args| - 1 {
      ApplyArgMeaning(st, args[i], args[i + 1], files);
      var next := ApplyArg(st, args[i], args[i + 1], files).value;
      LastLuminaryWins(next, args, i + 2, files);
    }
  }

  /** Whatever the arguments, an accepted input holds only checked components, one per item. */
  lemma {:induction false} ArgLoopKeepsWellFormed(st: InputState, args: seq<string>, i: nat, files: map<string, InputJson>)
    requires WellFormed(st.components) && ArgLoop(st, args, i, files).Ok?
    ensures WellFormed(ArgLoop(st, args, i, files).value.components)
    decreases |args| - i
  {
    if i < |args| - 1 {
      var r := ApplyArg(st, args[i], args[i + 1], files);
      var next := r.value;
      match KeyOf(args[i]) {
        case Some(ConfigFileKey) =>
          InsertAllKeepsWellFormed(st.components, files[args[i + 1]].components);
        case Some(ComponentKey) =>
          InsertKeepsWellFormed(st.components, ParseComponent(args[i + 1]).value);
        case _ =>
      }
      ArgLoopKeepsWellFormed(next, args, i + 2, files);
    }
  }

  // ---------------------------------------------------------------------------
  // The object

  /** `Input`: its fields are assigned by `CreateFromArgs`, `ReadFromFile` and `AddComponent`. */
  class Input {
    var operation: string
    var bank: int
    var luminary: string
    var components: seq<Component>

    function State(): InputState
      reads this
    {
      InputState(operation, bank, luminary, components)
    }

    constructor ()
      ensures State() == Initial
    {
      operation := "trigger";
      bank := -1;
      luminary := "";
      components := [];
    }

    /** `AddComponent(Component)`: checks the component, then stores it under its item. */
    method AddComponent(component: Component) returns (err: Option<string>)
      modifies this
      ensures err == ComponentError(component)
      ensures err.None? ==> State() == old(State()).(components := Put(old(components), component))
      ensures err.Some? ==> State() == old(State())
    {
      if !MatchesDigits(component.item, 1, 4) {
        return Some("Invalid component item [" + component.ToString() + "].");
      }
      if !MatchesDigits(component.material, 1, 12) {
        return Some("Invalid component material [" + component.ToString() + "].");
      }
      if component.quantity <= 0 {
        return Some("Invalid component quantity [" + component.ToString() + "].");
      }
      components := Put(components, component);
      return None;
    }

    /** `AddComponent(string)`: parses `item/material/quantity`, then adds it. */
    method AddComponentArg(arg: string) returns (err: Option<string>)
      modifies this
      ensures ParseComponent(arg).Err? ==> err == Some(ParseComponent(arg).message) && State() == old(State())
      ensures ParseComponent(arg).Ok? ==>
        var c := ParseComponent(arg).value;
        err == ComponentError(c) &&
        State() == if err.None? then old(State()).(components := Put(old(components), c)) else old(State())
    {
      var parts := Split(arg, '/');
      var item := parts[0];
      var material := if |parts| > 1 then parts[1] else "";
      var quantity := 1;
      if |parts| > 2 {
        var q := ParseInt32(parts[2]);
        if q.None? {
          return Some(FormatError);
        }
        quantity := q.value;
      }
      err := AddComponent(Component(item, material, quantity));
    }

    /** The merge half of `ReadFromFile(path)`, given the decoded file. */
    method ReadFromFile(source: InputJson) returns (err: Option<string>)
      modifies this
      ensures Merge(old(State()), source).Err? ==> err == Some(Merge(old(State()), source).message)
      ensures Merge(old(State()), source).Ok? ==> err.None? && State() == Merge(old(State()), source).value
    {
      if source.bank >= 0 {
        bank := source.bank;
      }
      if source.luminary != "" {
        luminary := source.luminary;
      }
      var list := source.components;
      var i := 0;
      while i < |list|
        invariant 0 <= i <= |list|
        invariant operation == old(operation)
        invariant bank == (if source.bank >= 0 then source.bank else old(bank))
        invariant luminary == (if source.luminary != "" then source.luminary else old(luminary))
        invariant InsertAll(old(components), list) == InsertAll(components, list[i..])
      {
        assert list[i..][1..] == list[i + 1..];
        err := AddComponent(list[i]);
        if err.Some? {
          return;
        }
        i := i + 1;
      }
      return None;
    }

    /** One turn of the `switch` in `CreateFromArgs`. */
    method Apply(k: string, v: string, files: map<string, InputJson>) returns (err: Option<string>)
      modifies this
      ensures ApplyArg(old(State()), k, v, files).Err? ==> err == Some(ApplyArg(old(State()), k, v, files).message)
      ensures ApplyArg(old(State()), k, v, files).Ok? ==> err.None? && State() == ApplyArg(old(State()), k, v, files).value
    {
      match KeyOf(k) {
        case Some(ConfigFileKey) =>
          if v !in files {
            return Some(MissingFile(v));
          }
          err := ReadFromFile(files[v]);
        case Some(OperationKey) =>
          operation := v;
          err := None;
        case Some(BankKey) =>
          var b := ParseInt32(v);
          if b.None? {
            return Some(FormatError);
          }
          bank := b.value;
          err := None;
        case Some(LuminaryKey) =>
          luminary := v;
          err := None;
        case Some(ComponentKey) =>
          err := AddComponentArg(v);
        case None =>
          err := Some("Unknown argument: [" + k + "].");
      }
    }

    /** `CreateFromArgs(args)`; `files` holds the decoded input files by path. */
    static method CreateFromArgs(args: seq<string>, files: map<string, InputJson>) returns (input: Input, err: Option<string>)
      ensures fresh(input)
      ensures ParseArgs(args, files).Err? ==> err == Some(ParseArgs(args, files).message)
      ensures ParseArgs(args, files).Ok? ==> err.None? && input.State() == ParseArgs(args, files).value
    {
      input := new Input();
      var i := 0;
      while i < |args| - 1
        invariant fresh(input)
        invariant ParseArgs(args, files) == ArgLoop(input.State(), args, i, files)
        decreases |args| - i
      {
        var k := args[i];
        var v := if i + 1 < |args| then args[i + 1] else "";
        err := input.Apply(k, v, files);
        if err.Some? {
          return;
        }
        i := i + 2;
      }
      err := None;
    }
  }
}
