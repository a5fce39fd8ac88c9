/** The configuration record of the tool (`Config`), its luminary profiles
    (`Config.LuminaryConfig`) and their rectangles (`Config.AreaConfig`), as
    values already decoded from the configuration file. */
module Settings {
  import opened Text

  /** `Config.AreaConfig`: one scan rectangle in image coordinates. */
  datatype AreaConfig = AreaConfig(x1: int, y1: int, x2: int, y2: int)
  {
    /** `ToString()`: `X1xY1 X2xY2`. */
    function ToString(): string
    {
      IntToString(x1) + "x" + IntToString(y1) + " " + IntToString(x2) + "x" + IntToString(y2)
    }

    /** `ToCommand()`: the four coordinates X1, Y1, X2, Y2, in that order, each
        left-padded with '0' to four characters. */
    function ToCommand(): string
    {
      Field(x1) + Field(y1) + Field(x2) + Field(y2)
    }

    /** Every coordinate fits the four-digit wire format. */
    predicate InRange()
    {
      0 <= x1 <= 9999 && 0 <= y1 <= 9999 && 0 <= x2 <= 9999 && 0 <= y2 <= 9999
    }
  }

  /** One coordinate of `ToCommand`: its decimal form, padded and never truncated. */
  function Field(v: int): (f: string)
    ensures |f| == if |IntToString(v)| >= 4 then |IntToString(v)| else 4
    ensures f[|f| - |IntToString(v)|..] == IntToString(v)
    ensures forall i :: 0 <= i < |f| - |IntToString(v)| ==> f[i] == '0'
  {
    PadLeft(IntToString(v), 4, '0')
  }

  lemma {:induction false} ShortDecimal(n: nat)
    requires n <= 9999
    ensures |NatToString(n)| <= 4
  {
    if n >= 10 {
      ShortDecimal(n / 10);
      if n / 10 >= 10 {
        assert n / 100 < 100;
      }
    }
  }

  /** For coordinates in 0..9999 a field is exactly four digits. */
  lemma FieldDigits(v: int)
    requires 0 <= v <= 9999
    ensures |Field(v)| == 4 && AllDigits(Field(v))
  {
    ShortDecimal(v);
  }

  /** For coordinates in 0..9999, `ToCommand()` is sixteen digits, the k-th group
      of four being the k-th coordinate's field. */
  lemma ToCommandShape(a: AreaConfig)
    requires a.InRange()
    ensures |a.ToCommand()| == 16 && AllDigits(a.ToCommand())
    ensures a.ToCommand()[0..4] == Field(a.x1) && a.ToCommand()[4..8] == Field(a.y1)
    ensures a.ToCommand()[8..12] == Field(a.x2) && a.ToCommand()[12..16] == Field(a.y2)
  {
    FieldDigits(a.x1);
    FieldDigits(a.y1);
    FieldDigits(a.x2);
    FieldDigits(a.y2);
    var s := a.ToCommand();
    assert forall i :: 0 <= i < 16 ==> IsDigit(s[i]) by {
      forall i | 0 <= i < 16 ensures IsDigit(s[i]) {
        if i < 4 {
          assert s[i] == Field(a.x1)[i];
        } else if i < 8 {
          assert s[i] == Field(a.y1)[i - 4];
        } else if i < 12 {
          assert s[i] == Field(a.x2)[i - 8];
        } else {
          assert s[i] == Field(a.y2)[i - 12];
        }
      }
    }
  }

  /** `Dictionary<string, IList<AreaConfig>>` from item to its areas, in
      declaration order (the order C# enumerates it in). */
  type ItemAreas = seq<(string, seq<AreaConfig>)>

  /** The number of areas listed for all items together. */
  function TotalAreas(entries: ItemAreas): nat
  {
    if entries == [] then 0
    else TotalAreas(entries[..|entries| - 1]) + |entries[|entries| - 1].1|
  }

  /** The first `a` areas of one item, each paired with the item. */
  function Pairs(entry: (string, seq<AreaConfig>), a: nat): (r: seq<(string, AreaConfig)>)
    requires a <= |entry.1|
    ensures |r| == a
  {
    if a == 0 then [] else Pairs(entry, a - 1) + [(entry.0, entry.1[a - 1])]
  }

  /** Every (item, area) pair in declaration order, and within an item in list order. */
  function Flatten(entries: ItemAreas): (r: seq<(string, AreaConfig)>)
    ensures |r| == TotalAreas(entries)
  {
    if entries == [] then []
    else
      var last := entries[|entries| - 1];
      Flatten(entries[..|entries| - 1]) + Pairs(last, |last.1|)
  }

  /** `Config.LuminaryConfig`: the areas of one product variant, LED items and optics items. */
  datatype LuminaryConfig = LuminaryConfig(leds: ItemAreas, optics: ItemAreas)
  {
    /** `CountLeds()`: adds up the lengths of the LED area lists. */
    method CountLeds() returns (count: nat)
      ensures count == TotalAreas(leds)
    {
      count := 0;
      var i := 0;
      while i < |leds|
        invariant 0 <= i <= |leds|
        invariant count == TotalAreas(leds[..i])
      {
        assert leds[..i + 1][..i] == leds[..i];
        count := count + |leds[i].1|;
        i := i + 1;
      }
      assert leds[..i] == leds;
    }

    /** `CountOptics()`: adds up the lengths of the optics area lists. */
    method CountOptics() returns (count: nat)
      ensures count == TotalAreas(optics)
    {
      count := 0;
      var i := 0;
      while i < |optics|
        invariant 0 <= i <= |optics|
        invariant count == TotalAreas(optics[..i])
      {
        assert optics[..i + 1][..i] == optics[..i];
        count := count + |optics[i].1|;
        i := i + 1;
      }
      assert optics[..i] == optics;
    }
  }

  /** `Config`, with the fields the core reads. `Luminaries` maps a luminary name
      to its list of profiles; only its lookups are used, so it is a map. */
  datatype Config = Config(
    bank: int,
    ledsPrefix: string,
    opticsPrefix: string,
    ipAddress: string,
    connectRetryCount: int,
    connectRetryDelay: int,
    triggerRetryCount: int,
    triggerRetryDelay: int,
    luminaries: map<string, seq<LuminaryConfig>>)

  /** The values a configuration has before the file overrides them. */
  function DefaultConfig(): (c: Config)
    ensures c.bank == 0 && c.ledsPrefix == "7" && c.opticsPrefix == "6"
    ensures c.connectRetryCount == 0 && c.connectRetryDelay == 2000
    ensures c.triggerRetryCount == 0 && c.triggerRetryDelay == 1000
  {
    Config(0, "7", "6", "", 0, 2000, 0, 1000, map[])
  }
}
