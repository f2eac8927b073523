/** The figure internal/gateway states to the ledger: a key's spend at 12 fractional digits. */
module GatewayCount {
  import opened Digits
  import opened Strings
  import opened Decimals
  import opened DecimalText

  const LEDGER_SCALE := 12

  /** The parts of a printed figure that has a fraction. */
  lemma PrintedParts(figure: Decimal)
    requires Sign(figure) >= 0 && Scale(figure) > 0
    ensures var cut := CutAt(Text(figure), '.');
            && cut.found && IsWhole(cut.before) && AllDigits(cut.after) && |cut.after| == Scale(figure)
            && NatValue(cut.before + cut.after) == Normal(figure).coefficient
  {
    var n := Normal(figure);
    SignOfValue(n.coefficient, n.scale);
    CutUnique(Whole(n.coefficient, n.scale), '.', Fraction(n.coefficient, n.scale));
  }

  /** roundUp: keep the figure's first digits as printed, and add one in the last kept place. */
  function RoundUp(figure: Decimal, scale: nat): Decimal
    requires Sign(figure) >= 0 && scale > 0
  {
    if Scale(figure) <= scale then figure else
      PrintedParts(figure);
      var cut := CutAt(Text(figure), '.');
      LiteralParses(cut.before, cut.after[..scale]);
      Add(Parse(cut.before + "." + cut.after[..scale]).value, DivPow10(FromInt(1), scale))
  }

  lemma MultipleOfTen(c: int, k: nat)
    requires k > 0
    ensures c * Pow10(k) % 10 == 0
  {
    TimesTen(c, Pow10(k - 1));
  }

  /** A magnitude cut at a coarser place: what is kept, and what is dropped below it. */
  lemma CutDigits(whole: string, fraction: string, scale: nat) returns (kept: nat, dropped: nat)
    requires AllDigits(whole) && AllDigits(fraction) && scale <= |fraction|
    ensures kept == NatValue(whole + fraction[..scale])
    ensures NatValue(whole + fraction) == kept * Pow10(|fraction| - scale) + dropped
    ensures dropped < Pow10(|fraction| - scale)
  {
    var head, tail := whole + fraction[..scale], fraction[scale..];
    kept, dropped := NatValue(head), NatValue(tail);
    ValueOfConcat(head, tail);
    ValueBelowPow10(tail);
    assert head + tail == whole + fraction;
  }

  lemma SplitValue(kept: nat, dropped: nat, fine: nat, scale: nat)
    requires scale < fine
    ensures ValueAt(kept * Pow10(fine - scale) + dropped, fine) == ValueAt(kept, scale) + ValueAt(dropped, fine)
  {
    RescaledValue(kept, scale, fine - scale);
    ValueIsLinear(kept * Pow10(fine - scale), dropped, fine);
  }

  lemma ValueOfRoundUp(figure: Decimal, whole: string, fraction: string, scale: nat)
    requires Sign(figure) >= 0 && 0 < scale < Scale(figure) == |fraction|
    requires IsWhole(whole) && AllDigits(fraction) && CutAt(Text(figure), '.') == Cut(whole, fraction, true)
    ensures Value(RoundUp(figure, scale)) == ValueAt(NatValue(whole + fraction[..scale]) + 1, scale)
  {
    hide CutAt, NatValue;
    var head := NatValue(whole + fraction[..scale]);
    LiteralParses(whole, fraction[..scale]);
    ValueIsLinear(head, 1, scale);
    ValueOverPower(1, 0, scale);
  }

  lemma RoundedValue(figure: Decimal, scale: nat) returns (kept: nat, dropped: nat)
    requires Sign(figure) >= 0 && 0 < scale < Scale(figure)
    ensures 0 < dropped < Pow10(Scale(figure) - scale)
    ensures Value(figure) == ValueAt(kept, scale) + ValueAt(dropped, Scale(figure))
    ensures Value(RoundUp(figure, scale)) == ValueAt(kept + 1, scale)
  {
    hide CutAt, NatValue;
    PrintedParts(figure);
    var cut := CutAt(Text(figure), '.');
    var whole, fraction := cut.before, cut.after;
    ValueOfRoundUp(figure, whole, fraction, scale);
    kept, dropped := CutDigits(whole, fraction, scale);
    SplitValue(kept, dropped, |fraction|, scale);
    MultipleOfTen(kept, |fraction| - scale);
  }

  lemma PlaceBounds(dropped: nat, scale: nat, fine: nat)
    requires scale < fine && 0 < dropped < Pow10(fine - scale)
    ensures 0.0 < ValueAt(dropped, fine) < ValueAt(1, scale)
  {
    RescaledValue(1, scale, fine - scale);
    ValueIsLinear(Pow10(fine - scale), dropped, fine);
    SignOfValue(dropped, fine);
    SignOfValue(Pow10(fine - scale) - dropped, fine);
  }

  /** No multiple of 10^-scale lies strictly between kept and kept + 1 of them. */
  lemma NoPlaceBetween(c: int, kept: nat, scale: nat)
    requires ValueAt(kept, scale) < ValueAt(c, scale)
    ensures ValueAt(kept + 1, scale) <= ValueAt(c, scale)
  {
    ValueIsLinear(c, kept, scale);
    SignOfValue(c - kept, scale);
    ValueIsLinear(c, kept + 1, scale);
    SignOfValue(c - (kept + 1), scale);
  }

  /**
  The stated figure fits the ledger's scale, is never below the gateway's, and no
  decimal that fits and is not below the gateway's figure is smaller.
  */
  lemma RoundUpIsLeast(figure: Decimal, scale: nat)
    requires Sign(figure) >= 0 && scale > 0
    ensures Scale(RoundUp(figure, scale)) <= scale
    ensures Value(figure) <= Value(RoundUp(figure, scale))
    ensures forall other: Decimal :: other.scale <= scale && Value(figure) <= Value(other) ==>
                                       Value(RoundUp(figure, scale)) <= Value(other)
  {
    hide CutAt, NatValue;
    if Scale(figure) > scale {
      var kept, dropped := RoundedValue(figure, scale);
      PlaceBounds(dropped, scale, Scale(figure));
      ValueIsLinear(kept, 1, scale);
      ScaleIsLeast(RoundUp(figure, scale), Decimal(kept + 1, scale));
      forall other: Decimal | other.scale <= scale && Value(figure) <= Value(other)
        ensures Value(RoundUp(figure, scale)) <= Value(other)
      {
        NoPlaceBetween(Rescale(other, scale), kept, scale);
      }
    }
  }

  /** SpendFor's figure: the gateway's count as the attestation prints it. */
  function Spend(figure: Decimal): string
    requires Sign(figure) >= 0
  {
    Text(RoundUp(figure, LEDGER_SCALE))
  }

  /** The ledger reads the printed spend exactly, at its own scale, and never below what the gateway counted. */
  lemma LedgerReadsSpend(figure: Decimal)
    requires Sign(figure) >= 0
    ensures Parse(Spend(figure)).Some?
    ensures var read := Parse(Spend(figure)).value;
            && Scale(read) <= LEDGER_SCALE && Value(figure) <= Value(read)
            && (Scale(figure) <= LEDGER_SCALE ==> Value(read) == Value(figure))
  {
    hide RoundUp, Text, Parse, Value, ValueAt;
    RoundUpIsLeast(figure, LEDGER_SCALE);
    if Scale(figure) <= LEDGER_SCALE {
      KeptWhenItFits(figure);
    }
    ParseReadsText(RoundUp(figure, LEDGER_SCALE));
    EqualValuesEqualNormals(Normal(RoundUp(figure, LEDGER_SCALE)), RoundUp(figure, LEDGER_SCALE));
  }

  lemma KeptWhenItFits(figure: Decimal)
    requires Sign(figure) >= 0 && Scale(figure) <= LEDGER_SCALE
    ensures RoundUp(figure, LEDGER_SCALE) == figure
  {
  }
}
