/** The SR-5000 commands the tool sends, and the three-digit area numbers they
    and the area table use. */
module Commands {
  import opened Text
  import opened Settings

  lemma {:induction false} ShortNumber(n: nat)
    requires n <= 999
    ensures |NatToString(n)| <= 3
  {
    if n >= 10 {
      ShortNumber(n / 10);
    }
  }

  /** `n.ToString().PadLeft(3, '0')`. */
  function AreaNo(n: nat): string
  {
    PadLeft(NatToString(n), 3, '0')
  }

  /** An area number is at least three digits, exactly three up to 999, and
      reads back as the number it was made from. */
  lemma AreaNoDigits(n: nat)
    ensures AllDigits(AreaNo(n)) && ParseDigits(AreaNo(n)) == n
    ensures |AreaNo(n)| >= 3 && (n <= 999 ==> |AreaNo(n)| == 3)
  {
    PaddedRoundTrip(n, 3);
    if n <= 999 {
      ShortNumber(n);
    }
  }

  /** Different numbers get different area numbers. */
  lemma AreaNoInjective(m: nat, n: nat)
    requires AreaNo(m) == AreaNo(n)
    ensures m == n
  {
    AreaNoDigits(m);
    AreaNoDigits(n);
  }

  /** A command, by what it does; `Text()` is what goes over the wire. */
  datatype Command =
    | ResetAreas                              // DEFAULTDAREA,0
    | DefineArea(no: nat, area: AreaConfig)   // WD,<areaNo>,<area.ToCommand()>
    | SetParameter(id: nat, value: int)       // WP,<id>,<value>
    | ReadOn(bank: int)                       // LON, or LON,<bank> for a positive bank
    | ReadArea(no: nat)                       // RD,<areaNo>
  {
    function Text(): string
    {
      match this
      case ResetAreas => "DEFAULTDAREA,0"
      case DefineArea(no, area) => "WD," + AreaNo(no) + "," + area.ToCommand()
      case SetParameter(id, value) => "WP," + NatToString(id) + "," + IntToString(value)
      case ReadOn(bank) => if bank > 0 then "LON," + PadLeft(IntToString(bank), 2, '0') else "LON"
      case ReadArea(no) => "RD," + AreaNo(no)
    }
  }

  /** A positive bank of one or two digits is sent as exactly two digits after
      "LON,", and those digits read back as the bank; a bank of zero or less
      selects the current bank with a bare "LON". */
  lemma ReadOnText(bank: int)
    ensures bank <= 0 ==> ReadOn(bank).Text() == "LON"
    ensures 0 < bank <= 99 ==>
      var t := ReadOn(bank).Text();
      |t| == 6 && t[..4] == "LON," && AllDigits(t[4..]) && ParseDigits(t[4..]) == bank
  {
    if 0 < bank <= 99 {
      var digits := PadLeft(IntToString(bank), 2, '0');
      assert ReadOn(bank).Text() == "LON," + digits;
      assert IntToString(bank) == NatToString(bank);
      BankDigits(bank);
      Halves("LON,", digits);
    }
  }

  lemma Halves(head: string, tail: string)
    ensures (head + tail)[..|head|] == head && (head + tail)[|head|..] == tail
  {
  }

  /** A bank of one or two digits is padded to exactly two digits. */
  lemma BankDigits(bank: nat)
    requires 0 < bank <= 99
    ensures var digits := PadLeft(NatToString(bank), 2, '0');
      |digits| == 2 && AllDigits(digits) && ParseDigits(digits) == bank
  {
    if bank >= 10 {
      assert bank / 10 < 10;
    }
    PaddedRoundTrip(bank, 2);
  }
}
