/**
The prices of a reconciliation (internal/reconcile/dollars.go). The same tokens are
priced three times: at the standard tier, at their own tier, and at their own tier and
region.
*/
module Pricing {
  import opened Wrappers
  import opened Decimals
  import opened Sorting
  import opened Sums
  import opened TokenChecks

  const TOKENS_PER_MILLION := 6
  const ANTHROPIC := "anthropic"
  const TIER_PRIORITY := "priority"
  const TIER_STANDARD := "standard"
  const REGION_GLOBAL := "global"

  /** What the catalog is asked for, for one source on one day. */
  datatype Query = Query(model: string, meter: Meter, tier: string, region: string)

  datatype Price = Price(listUnitPrice: Decimal, isFallback: bool, residencyMultiplier: Option<Decimal>)

  /** The pinned catalog, for one source and day: None is a lookup that fails. */
  datatype Walker = Walker(source: string, lookup: Query -> Option<Price>)

  datatype Basis = Standard | Tiered | Served

  /** One class's unit price at each basis, and a note: empty when there is none. */
  datatype Prices = Prices(standard: Decimal, tiered: Decimal, served: Decimal, note: string)
  {
    function At(basis: Basis): Decimal {
      match basis
      case Standard => standard
      case Tiered => tiered
      case Served => served
    }
  }

  function Note(record: Usage): (note: string)
    ensures note != ""
  {
    "tier " + record.tier + " has no catalog price for " + record.model + ", so its effect stays unattributed"
  }

  /**
  The three unit prices of one class, or None when a lookup they need fails. Where only
  a fallback row answers for the tier, the standard price stands in and a note says so.
  */
  function PricesOf(w: Walker, record: Usage, meter: Meter): Option<Prices> {
    var standard := w.lookup(Query(record.model, meter, TIER_STANDARD, REGION_GLOBAL));
    if standard.None? then None
    else if w.source == ANTHROPIC && record.tier == TIER_PRIORITY then
      Some(Prices(standard.value.listUnitPrice, ZERO, ZERO, ""))
    else
      var named := w.lookup(Query(record.model, meter, record.tier, REGION_GLOBAL));
      if named.None? then None else
        var unnamed := named.value.isFallback && !standard.value.isFallback;
        var tiered := if unnamed then standard.value.listUnitPrice else named.value.listUnitPrice;
        var note := if unnamed then Note(record) else "";
        if record.region == "" || record.region == REGION_GLOBAL then
          Some(Prices(standard.value.listUnitPrice, tiered, tiered, note))
        else
          var regional := w.lookup(Query(record.model, meter, record.tier, record.region));
          if regional.None? then None else
            var factor := regional.value.residencyMultiplier;
            var served := if factor.Some? then Mul(tiered, factor.value) else tiered;
            Some(Prices(standard.value.listUnitPrice, tiered, served, note))
  }

  predicate IsStandard(record: Usage) {
    record.tier == TIER_STANDARD && record.region in {"", REGION_GLOBAL}
  }

  lemma StandardPrices(w: Walker, record: Usage, meter: Meter)
    requires IsStandard(record)
    ensures var prices := PricesOf(w, record, meter);
            prices.Some? ==>
              prices.value.standard == prices.value.tiered == prices.value.served && prices.value.note == ""
  {
  }

  /** Only a fallback row answers for the tier served, where the standard tier has a price of its own. */
  predicate FallbackOnly(w: Walker, record: Usage, meter: Meter) {
    var standard := w.lookup(Query(record.model, meter, TIER_STANDARD, REGION_GLOBAL));
    var named := w.lookup(Query(record.model, meter, record.tier, REGION_GLOBAL));
    && !(w.source == ANTHROPIC && record.tier == TIER_PRIORITY)
    && standard.Some? && named.Some? && named.value.isFallback && !standard.value.isFallback
  }

  lemma NotedExactlyWhenFallback(w: Walker, record: Usage, meter: Meter)
    requires PricesOf(w, record, meter).Some?
    ensures var prices := PricesOf(w, record, meter).value;
            && prices.note == (if FallbackOnly(w, record, meter) then Note(record) else "")
            && (FallbackOnly(w, record, meter) ==> prices.tiered == prices.standard)
  {
  }

  /** The region served multiplies the class's price by the factor. */
  predicate Multiplied(w: Walker, record: Usage, meter: Meter, factor: Decimal) {
    var regional := w.lookup(Query(record.model, meter, record.tier, record.region));
    && record.region !in {"", REGION_GLOBAL}
    && regional.Some? && regional.value.residencyMultiplier == Some(factor)
  }

  lemma ServedIsMultiplied(w: Walker, record: Usage, meter: Meter, factor: Decimal)
    requires Multiplied(w, record, meter, factor) && PricesOf(w, record, meter).Some?
    ensures var prices := PricesOf(w, record, meter).value;
            Value(prices.served) == Value(prices.tiered) * Value(factor)
  {
    hide Value, Mul;
    ZeroIsZero();
  }

  // ---- What the tokens cost -----------------------------------------------

  /** The tokens of a class that are priced: those of a class that has any. */
  predicate Counted(record: Usage, meter: Meter) {
    meter in record.tokens && Sign(record.tokens[meter]) != 0
  }

  predicate Priced(w: Walker, record: Usage, meter: Meter) {
    Counted(record, meter) ==> PricesOf(w, record, meter).Some?
  }

  /** The price of one class's tokens: millions of them at the unit price. */
  ghost function PartOf(w: Walker, record: Usage, basis: Basis): Meter -> real {
    (meter: Meter) =>
      if Counted(record, meter) && PricesOf(w, record, meter).Some? then
        Value(PricesOf(w, record, meter).value.At(basis)) *
        TimesPow10(Value(record.tokens[meter]), 0 - TOKENS_PER_MILLION)
      else 0.0
  }

  /** The tokens of every record at one basis. */
  ghost function CostAt(w: Walker, records: seq<Usage>, basis: Basis): real {
    if records == [] then 0.0 else
      var last := records[|records| - 1];
      CostAt(w, records[..|records| - 1], basis) + SetSum(last.tokens.Keys, PartOf(w, last, basis))
  }

  ghost function NotesAt(w: Walker, record: Usage, meters: set<Meter>): set<string> {
    set m | m in meters && Counted(record, m) && PricesOf(w, record, m).Some? && PricesOf(w, record, m).value.note != ""
      :: PricesOf(w, record, m).value.note
  }

  ghost function NotesOf(w: Walker, records: seq<Usage>): set<string> {
    if records == [] then {} else
      var last := records[|records| - 1];
      NotesOf(w, records[..|records| - 1]) + NotesAt(w, last, last.tokens.Keys)
  }

  datatype Pricing = Pricing(standard: Decimal, tiered: Decimal, served: Decimal, notes: seq<string>)
  {
    function At(basis: Basis): Decimal {
      match basis
      case Standard => standard
      case Tiered => tiered
      case Served => served
    }
  }

  ghost predicate NoRepeats(notes: seq<string>) {
    forall i, j | 0 <= i < j < |notes| :: notes[i] != notes[j]
  }

  ghost function NoteSet(notes: seq<string>): set<string> {
    set n | n in notes
  }

  /** The totals and the notes so far: sums in normal form, and each note once. */
  ghost predicate Sums3(p: Pricing, cost: Basis -> real, notes: set<string>) {
    && (forall basis :: Value(p.At(basis)) == cost(basis) && IsNormal(p.At(basis)))
    && NoRepeats(p.notes) && NoteSet(p.notes) == notes
  }

  ghost function CostSoFar(w: Walker, done: seq<Usage>, record: Usage, meters: set<Meter>): Basis -> real {
    (basis: Basis) => CostAt(w, done, basis) + SetSum(meters, PartOf(w, record, basis))
  }

  function WithNote(notes: seq<string>, note: string): seq<string> {
    if note != "" && note !in notes then notes + [note] else notes
  }

  function AddPrices(total: Pricing, prices: Prices, quantity: Decimal): Pricing {
    Pricing(Add(total.standard, Mul(prices.standard, quantity)),
            Add(total.tiered, Mul(prices.tiered, quantity)),
            Add(total.served, Mul(prices.served, quantity)),
            WithNote(total.notes, prices.note))
  }

  lemma AddPricesAdds(total: Pricing, prices: Prices, quantity: Decimal, basis: Basis)
    ensures Value(AddPrices(total, prices, quantity).At(basis)) ==
            Value(total.At(basis)) + Value(prices.At(basis)) * Value(quantity)
    ensures IsNormal(AddPrices(total, prices, quantity).At(basis))
  {
    hide Value, Add, Mul, IsNormal;
  }

  lemma NoteJoins(notes: seq<string>, note: string)
    requires NoRepeats(notes)
    ensures NoRepeats(WithNote(notes, note))
    ensures NoteSet(WithNote(notes, note)) == NoteSet(notes) + if note != "" then {note} else {}
  {
  }

  /** One class more, priced. */
  lemma ClassAdds(w: Walker, done: seq<Usage>, record: Usage, meters: set<Meter>, meter: Meter, total: Pricing)
    requires Sums3(total, CostSoFar(w, done, record, meters), NotesOf(w, done) + NotesAt(w, record, meters))
    requires meter in record.tokens && meter !in meters && Counted(record, meter) && PricesOf(w, record, meter).Some?
    ensures Sums3(AddPrices(total, PricesOf(w, record, meter).value,
                            DivPow10(record.tokens[meter], TOKENS_PER_MILLION)),
                  CostSoFar(w, done, record, meters + {meter}), NotesOf(w, done) + NotesAt(w, record, meters + {meter}))
  {
    hide Value, Add, Mul, DivPow10, IsNormal, PricesOf, Counted, NoRepeats, NoteSet, AddPrices, TimesPow10, SetSum,
      CostAt, NotesOf;
    var prices, quantity := PricesOf(w, record, meter).value, DivPow10(record.tokens[meter], TOKENS_PER_MILLION);
    var next := AddPrices(total, prices, quantity);
    forall basis
      ensures Value(next.At(basis)) == CostSoFar(w, done, record, meters + {meter})(basis) && IsNormal(next.At(basis))
    {
      AddPricesAdds(total, prices, quantity, basis);
      TakeAny(meters + {meter}, PartOf(w, record, basis), meter);
      assert meters + {meter} - {meter} == meters;
    }
    NoteJoins(total.notes, prices.note);
    AddPricesNotes(total, prices, quantity);
    assert NotesAt(w, record, meters + {meter}) == NotesAt(w, record, meters) +
        if prices.note != "" then {prices.note} else {};
  }

  lemma AddPricesNotes(total: Pricing, prices: Prices, quantity: Decimal)
    ensures AddPrices(total, prices, quantity).notes == WithNote(total.notes, prices.note)
  {
  }

  /** One class more, with no tokens to price. */
  lemma ClassSkipped(w: Walker, done: seq<Usage>, record: Usage, meters: set<Meter>, meter: Meter, total: Pricing)
    requires Sums3(total, CostSoFar(w, done, record, meters), NotesOf(w, done) + NotesAt(w, record, meters))
    requires meter !in meters && !Counted(record, meter)
    ensures Sums3(total, CostSoFar(w, done, record, meters + {meter}),
                  NotesOf(w, done) + NotesAt(w, record, meters + {meter}))
  {
    hide Value, IsNormal, PricesOf, Counted, NoRepeats, NoteSet, TimesPow10, SetSum, CostAt, NotesOf;
    forall basis
      ensures CostSoFar(w, done, record, meters + {meter})(basis) == CostSoFar(w, done, record, meters)(basis)
    {
      TakeAny(meters + {meter}, PartOf(w, record, basis), meter);
      assert meters + {meter} - {meter} == meters;
    }
    assert NotesAt(w, record, meters + {meter}) == NotesAt(w, record, meters);
  }

  /** One record's classes, in any order, added to the totals. */
  method PriceRecord(w: Walker, ghost done: seq<Usage>, record: Usage, before: Pricing) returns (total: Option<Pricing>)
    requires Sums3(before, CostSoFar(w, done, record, {}), NotesOf(w, done) + NotesAt(w, record, {}))
    ensures total.Some? <==> forall m | m in record.tokens :: Priced(w, record, m)
    ensures total.Some? ==> Sums3(total.value, CostSoFar(w, done, record, record.tokens.Keys),
                                  NotesOf(w, done) + NotesAt(w, record, record.tokens.Keys))
  {
    hide Sums3, PricesOf, CostSoFar, NotesOf, NotesAt, Sign, DivPow10, AddPrices;
    var sum := before;
    var left := record.tokens.Keys;
    ghost var seen: set<Meter> := {};
    while left != {}
      invariant left + seen == record.tokens.Keys && left !! seen
      invariant forall m | m in seen :: Priced(w, record, m)
      invariant Sums3(sum, CostSoFar(w, done, record, seen), NotesOf(w, done) + NotesAt(w, record, seen))
      decreases |left|
    {
      var meter :| meter in left;
      left := left - {meter};
      var tokens := record.tokens[meter];
      if Sign(tokens) == 0 {
        ClassSkipped(w, done, record, seen, meter, sum);
      } else {
        var prices := PricesOf(w, record, meter);
        if prices.None? {
          assert !Priced(w, record, meter);
          return None;
        }
        ClassAdds(w, done, record, seen, meter, sum);
        sum := AddPrices(sum, prices.value, DivPow10(tokens, TOKENS_PER_MILLION));
      }
      seen := seen + {meter};
    }
    assert seen == record.tokens.Keys;
    return Some(sum);
  }

  /** The notes on the records, each once and sorted. */
  ghost predicate AreNotes(notes: seq<string>, w: Walker, records: seq<Usage>) {
    NoRepeats(notes) && NoteSet(notes) == NotesOf(w, records) && SortedBy(Itself, notes)
  }

  /** What price returns for the records: each basis's total, and the notes. */
  ghost predicate IsPricing(p: Pricing, w: Walker, records: seq<Usage>) {
    && (forall basis :: Value(p.At(basis)) == CostAt(w, records, basis) && IsNormal(p.At(basis)))
    && AreNotes(p.notes, w, records)
  }

  predicate RecordPriced(w: Walker, record: Usage) {
    forall m | m in record.tokens :: Priced(w, record, m)
  }

  lemma RecordStarts(w: Walker, done: seq<Usage>, record: Usage, total: Pricing)
    requires Sums3(total, (basis: Basis) => CostAt(w, done, basis), NotesOf(w, done))
    ensures Sums3(total, CostSoFar(w, done, record, {}), NotesOf(w, done) + NotesAt(w, record, {}))
  {
    hide Value, IsNormal, NoRepeats, NoteSet, CostAt, NotesOf;
    assert NotesAt(w, record, {}) == {};
  }

  lemma RecordEnds(w: Walker, done: seq<Usage>, record: Usage, total: Pricing)
    requires Sums3(total, CostSoFar(w, done, record, record.tokens.Keys),
                   NotesOf(w, done) + NotesAt(w, record, record.tokens.Keys))
    ensures Sums3(total, (basis: Basis) => CostAt(w, done + [record], basis), NotesOf(w, done + [record]))
  {
    hide Value, IsNormal, NoRepeats, NoteSet, SetSum, NotesAt, PartOf;
    assert (done + [record])[..|done|] == done;
  }

  lemma NotesSort(notes: seq<string>)
    requires NoRepeats(notes)
    ensures NoRepeats(Sorted(notes)) && NoteSet(Sorted(notes)) == NoteSet(notes) && SortedBy(Itself, Sorted(notes))
  {
    hide SortedBy, SortBy;
    SortBySorts(Itself, notes);
    SameNotes(notes, Sorted(notes));
  }

  lemma NoteCounts(notes: seq<string>)
    requires NoRepeats(notes)
    ensures forall n :: multiset(notes)[n] == if n in notes then 1 else 0
  {
    if notes != [] {
      var init, last := notes[..|notes| - 1], notes[|notes| - 1];
      NoteCounts(init);
      assert notes == init + [last];
      assert last !in init;
    }
  }

  lemma CountedTwice(notes: seq<string>, i: nat, j: nat)
    requires i < j < |notes|
    ensures notes[i] == notes[j] ==> multiset(notes)[notes[i]] >= 2
  {
    assert notes == notes[..i] + [notes[i]] + notes[i + 1..j] + [notes[j]] + notes[j + 1..];
  }

  lemma SameNotes(a: seq<string>, b: seq<string>)
    requires multiset(a) == multiset(b) && NoRepeats(a)
    ensures NoRepeats(b) && NoteSet(a) == NoteSet(b)
  {
    NoteCounts(a);
    forall i, j | 0 <= i < j < |b|
      ensures b[i] != b[j]
    {
      CountedTwice(b, i, j);
    }
    assert forall n :: n in a <==> n in multiset(a);
    assert forall n :: n in b <==> n in multiset(b);
  }

  /** price: every record's tokens at the three bases, or none when a class has no price. */
  method PriceAll(w: Walker, records: seq<Usage>) returns (total: Option<Pricing>)
    ensures total.Some? <==> forall i | 0 <= i < |records| :: RecordPriced(w, records[i])
    ensures total.Some? ==> IsPricing(total.value, w, records)
  {
    hide Sums3, CostSoFar, CostAt, NotesOf, NotesAt, Priced, NoRepeats, NoteSet, SortedBy, SortBy, Value, IsNormal;
    var sum := Pricing(ZERO, ZERO, ZERO, []);
    NothingPriced(w);
    for i := 0 to |records|
      invariant forall j | 0 <= j < i :: RecordPriced(w, records[j])
      invariant Sums3(sum, (basis: Basis) => CostAt(w, records[..i], basis), NotesOf(w, records[..i]))
    {
      RecordStarts(w, records[..i], records[i], sum);
      var next := PriceRecord(w, records[..i], records[i], sum);
      if next.None? {
        assert !RecordPriced(w, records[i]);
        return None;
      }
      sum := next.value;
      RecordEnds(w, records[..i], records[i], sum);
      assert records[..i] + [records[i]] == records[..i + 1];
    }
    assert records[..|records|] == records;
    SumsArePricing(sum, w, records);
    return Some(sum.(notes := Sorted(sum.notes)));
  }

  lemma NothingPriced(w: Walker)
    ensures Sums3(Pricing(ZERO, ZERO, ZERO, []), (basis: Basis) => CostAt(w, [], basis), NotesOf(w, []))
  {
  }

  lemma SumsArePricing(p: Pricing, w: Walker, records: seq<Usage>)
    requires Sums3(p, (basis: Basis) => CostAt(w, records, basis), NotesOf(w, records))
    ensures IsPricing(p.(notes := Sorted(p.notes)), w, records)
  {
    hide CostAt, NotesOf, NoRepeats, NoteSet, SortedBy, SortBy, Value, IsNormal;
    NotesSort(p.notes);
    forall basis
      ensures p.(notes := Sorted(p.notes)).At(basis) == p.At(basis)
    {
    }
  }

  lemma {:induction false} SameSetSameMultiset(a: seq<string>, b: seq<string>)
    requires NoRepeats(a) && NoRepeats(b) && NoteSet(a) == NoteSet(b)
    ensures multiset(a) == multiset(b)
  {
    NoteCounts(a);
    NoteCounts(b);
    assert forall n :: n in a <==> n in NoteSet(a);
    assert forall n :: n in b <==> n in NoteSet(b);
  }

  /** The order a record's classes are taken in changes nothing: the records have one pricing. */
  lemma PricingForgetsOrder(p: Pricing, q: Pricing, w: Walker, records: seq<Usage>)
    requires IsPricing(p, w, records) && IsPricing(q, w, records)
    ensures p == q
  {
    hide CostAt, NotesOf, NoRepeats, NoteSet, SortedBy, Value, IsNormal;
    NormalIsUnique(p.At(Standard), q.At(Standard));
    NormalIsUnique(p.At(Tiered), q.At(Tiered));
    NormalIsUnique(p.At(Served), q.At(Served));
    SameSetSameMultiset(p.notes, q.notes);
    SortedIsUnique(p.notes, q.notes);
  }

  // ---- What the catalog lists ---------------------------------------------

  /** One class's tokens at the catalog's own list price of a tier, in the global region. */
  ghost function ListedPart(w: Walker, record: Usage, tier: string): Meter -> real {
    (m: Meter) =>
      var price := w.lookup(Query(record.model, m, tier, "global"));
      if m in record.tokens && price.Some? then
        Value(price.value.listUnitPrice) * Value(record.tokens[m]) / 1000000.0
      else 0.0
  }

  /** The records' tokens at the list price of the tier each is given. */
  ghost function Listed(w: Walker, records: seq<Usage>, tierOf: Usage -> string): real {
    if records == [] then 0.0 else
      var last := records[|records| - 1];
      Listed(w, records[..|records| - 1], tierOf) + SetSum(last.tokens.Keys, ListedPart(w, last, tierOf(last)))
  }

  /** The premium tier of a provider that commits to it separately, so that its tokens bill nothing here. */
  predicate IsCommitted(w: Walker, record: Usage) {
    w.source == "anthropic" && record.tier == "priority"
  }

  predicate IsGlobal(record: Usage) {
    record.region == "" || record.region == "global"
  }

  /**
  The lookups a class needs: the standard price, and unless its tier is committed, the price
  at its tier, and at its tier and region where it was served in one.
  */
  predicate Answered(w: Walker, record: Usage, m: Meter) {
    && w.lookup(Query(record.model, m, "standard", "global")).Some?
    && (!IsCommitted(w, record) ==>
          && w.lookup(Query(record.model, m, record.tier, "global")).Some?
          && (!IsGlobal(record) ==> w.lookup(Query(record.model, m, record.tier, record.region)).Some?))
  }

  /** Records have a price exactly when the catalog answers for every class of theirs with tokens. */
  lemma PricedExactly(w: Walker, records: seq<Usage>)
    ensures (forall i | 0 <= i < |records| :: RecordPriced(w, records[i])) <==>
            forall i, m | 0 <= i < |records| && m in records[i].tokens ::
              Value(records[i].tokens[m]) != 0.0 ==> Answered(w, records[i], m)
  {
    hide Value;
    forall record: Usage, m: Meter | m in record.tokens
      ensures Priced(w, record, m) <==> (Value(record.tokens[m]) != 0.0 ==> Answered(w, record, m))
    {
    }
    if forall i, m | 0 <= i < |records| && m in records[i].tokens ::
         Value(records[i].tokens[m]) != 0.0 ==> Answered(w, records[i], m) {
      forall i | 0 <= i < |records|
        ensures RecordPriced(w, records[i])
      {
      }
    }
  }

  lemma Millionth(v: real)
    ensures TimesPow10(v, 0 - TOKENS_PER_MILLION) == v / 1000000.0
  {
    assert TimesPow10(v, -3) == v / 10.0 / 10.0 / 10.0;
    assert TimesPow10(v, -5) == TimesPow10(v, -3) / 10.0 / 10.0;
  }

  lemma PerMillion(price: real, tokens: real)
    ensures price * (tokens / 1000000.0) == price * tokens / 1000000.0
  {
  }

  /** A class with tokens costs its price for every million of them. */
  lemma PartIsListed(w: Walker, record: Usage, basis: Basis, tier: string, m: Meter)
    requires Priced(w, record, m) && m in record.tokens
    requires Counted(record, m) ==>
        var price := w.lookup(Query(record.model, m, tier, "global"));
        price.Some? && PricesOf(w, record, m).value.At(basis) == price.value.listUnitPrice
    ensures PartOf(w, record, basis)(m) == ListedPart(w, record, tier)(m)
  {
    hide Value, PricesOf, TimesPow10;
    var price := w.lookup(Query(record.model, m, tier, "global"));
    Millionth(Value(record.tokens[m]));
    if price.Some? {
      PerMillion(Value(price.value.listUnitPrice), Value(record.tokens[m]));
    }
  }

  /** Records cost at a basis what the catalog lists, when every class of theirs does. */
  lemma {:induction false} CostIsListed(w: Walker, records: seq<Usage>, basis: Basis, tierOf: Usage -> string)
    requires forall i, m | 0 <= i < |records| && m in records[i].tokens ::
               PartOf(w, records[i], basis)(m) == ListedPart(w, records[i], tierOf(records[i]))(m)
    ensures CostAt(w, records, basis) == Listed(w, records, tierOf)
  {
    hide PartOf, ListedPart, SetSum;
    if records != [] {
      var init, last := records[..|records| - 1], records[|records| - 1];
      assert forall i | 0 <= i < |init| :: init[i] == records[i];
      CostIsListed(w, init, basis, tierOf);
      SumOfSame(last.tokens.Keys, PartOf(w, last, basis), ListedPart(w, last, tierOf(last)));
    }
  }

  /** Whatever tier and region tokens were served at, their standard cost is at the standard tier's list price. */
  lemma StandardIsListed(w: Walker, records: seq<Usage>)
    requires forall i | 0 <= i < |records| :: RecordPriced(w, records[i])
    ensures CostAt(w, records, Standard) == Listed(w, records, (record: Usage) => "standard")
  {
    hide CostAt, Listed, PartOf, ListedPart, Counted;
    forall i, m | 0 <= i < |records| && m in records[i].tokens
      ensures PartOf(w, records[i], Standard)(m) == ListedPart(w, records[i], "standard")(m)
    {
      assert RecordPriced(w, records[i]);
      PartIsListed(w, records[i], Standard, "standard", m);
    }
    CostIsListed(w, records, Standard, (record: Usage) => "standard");
  }

  /** The catalog names the tier served, or falls back for the standard one too. */
  predicate OwnRow(w: Walker, record: Usage, m: Meter) {
    var standard := w.lookup(Query(record.model, m, "standard", "global"));
    var own := w.lookup(Query(record.model, m, record.tier, "global"));
    && !IsCommitted(w, record) && standard.Some? && own.Some?
    && (own.value.isFallback ==> standard.value.isFallback)
  }

  /** Tokens of tiers the catalog names cost, at their tier, that tier's list price. */
  lemma TiersAreListed(w: Walker, records: seq<Usage>)
    requires forall i | 0 <= i < |records| :: RecordPriced(w, records[i])
    requires forall i, m | 0 <= i < |records| && m in records[i].tokens ::
               Counted(records[i], m) ==> OwnRow(w, records[i], m)
    ensures CostAt(w, records, Tiered) == Listed(w, records, (record: Usage) => record.tier)
  {
    hide CostAt, Listed, PartOf, ListedPart, Counted;
    forall i, m | 0 <= i < |records| && m in records[i].tokens
      ensures PartOf(w, records[i], Tiered)(m) == ListedPart(w, records[i], records[i].tier)(m)
    {
      assert RecordPriced(w, records[i]);
      PartIsListed(w, records[i], Tiered, records[i].tier, m);
    }
    CostIsListed(w, records, Tiered, (record: Usage) => record.tier);
  }

  lemma {:induction false} SumOfNothing(meters: set<Meter>, f: Meter -> real)
    requires forall m | m in meters :: f(m) == 0.0
    ensures SetSum(meters, f) == 0.0
    decreases |meters|
  {
    if meters != {} {
      var m :| m in meters;
      TakeAny(meters, f, m);
      SumOfNothing(meters - {m}, f);
    }
  }

  /** Committed tokens cost nothing at their tier, nor as served. */
  lemma {:induction false} CommittedTokensCostNothing(w: Walker, records: seq<Usage>, basis: Basis)
    requires basis != Standard && forall i | 0 <= i < |records| :: IsCommitted(w, records[i])
    ensures CostAt(w, records, basis) == 0.0
  {
    hide Value, TimesPow10, SetSum, Counted;
    if records != [] {
      var init, last := records[..|records| - 1], records[|records| - 1];
      assert forall i | 0 <= i < |init| :: init[i] == records[i];
      CommittedTokensCostNothing(w, init, basis);
      ZeroIsZero();
      forall m
        ensures PartOf(w, last, basis)(m) == 0.0
      {
      }
      SumOfNothing(last.tokens.Keys, PartOf(w, last, basis));
    }
  }

  lemma PartAtStandardTier(w: Walker, record: Usage, m: Meter)
    requires record.tier == "standard"
    ensures PartOf(w, record, Tiered)(m) == PartOf(w, record, Standard)(m)
  {
    hide Value, TimesPow10, Counted;
  }

  /** Tokens of the standard tier cost the same at their tier, whatever region they were served in. */
  lemma {:induction false} StandardTierAddsNothing(w: Walker, records: seq<Usage>)
    requires forall i | 0 <= i < |records| :: records[i].tier == "standard"
    ensures CostAt(w, records, Tiered) == CostAt(w, records, Standard)
  {
    hide PartOf, SetSum;
    if records != [] {
      var init, last := records[..|records| - 1], records[|records| - 1];
      assert forall i | 0 <= i < |init| :: init[i] == records[i];
      StandardTierAddsNothing(w, init);
      forall m | m in last.tokens
        ensures PartOf(w, last, Tiered)(m) == PartOf(w, last, Standard)(m)
      {
        PartAtStandardTier(w, last, m);
      }
      SumOfSame(last.tokens.Keys, PartOf(w, last, Tiered), PartOf(w, last, Standard));
    }
  }

  /** No region multiplies the price of the class's tokens. */
  predicate Unmultiplied(w: Walker, record: Usage, m: Meter) {
    var regional := w.lookup(Query(record.model, m, record.tier, record.region));
    IsGlobal(record) || (regional.Some? && regional.value.residencyMultiplier.None?)
  }

  lemma PartUnmultiplied(w: Walker, record: Usage, m: Meter)
    requires Counted(record, m) ==> Unmultiplied(w, record, m)
    ensures PartOf(w, record, Served)(m) == PartOf(w, record, Tiered)(m)
  {
    hide Value, TimesPow10, Counted;
  }

  /** Tokens served where no multiplier applies cost as served what they cost at their tier. */
  lemma {:induction false} RegionsWithoutMultiplier(w: Walker, records: seq<Usage>)
    requires forall i, m | 0 <= i < |records| && m in records[i].tokens ::
               Counted(records[i], m) ==> Unmultiplied(w, records[i], m)
    ensures CostAt(w, records, Served) == CostAt(w, records, Tiered)
  {
    hide Counted, Unmultiplied, PartOf, SetSum;
    if records != [] {
      var init, last := records[..|records| - 1], records[|records| - 1];
      assert forall i | 0 <= i < |init| :: init[i] == records[i];
      RegionsWithoutMultiplier(w, init);
      forall m | m in last.tokens
        ensures PartOf(w, last, Served)(m) == PartOf(w, last, Tiered)(m)
      {
        PartUnmultiplied(w, last, m);
      }
      SumOfSame(last.tokens.Keys, PartOf(w, last, Served), PartOf(w, last, Tiered));
    }
  }

  // ---- What the premiums mean ---------------------------------------------

  lemma {:induction false} PartsMultiplied(w: Walker, record: Usage, meters: set<Meter>, factor: Decimal)
    requires forall m | m in meters && Counted(record, m) :: Multiplied(w, record, m, factor)
    ensures SetSum(meters, PartOf(w, record, Served)) == SetSum(meters, PartOf(w, record, Tiered)) * Value(factor)
    decreases |meters|
  {
    hide Value, PartOf, Counted, Multiplied, SetSum;
    if meters == {} {
      NothingMultiplied(PartOf(w, record, Served), PartOf(w, record, Tiered), Value(factor));
    } else {
      var m :| m in meters;
      TakeAny(meters, PartOf(w, record, Served), m);
      TakeAny(meters, PartOf(w, record, Tiered), m);
      PartsMultiplied(w, record, meters - {m}, factor);
      PartMultiplied(w, record, m, factor);
      Distributes(PartOf(w, record, Tiered)(m), SetSum(meters - {m}, PartOf(w, record, Tiered)), Value(factor));
    }
  }

  lemma NothingMultiplied(f: Meter -> real, g: Meter -> real, factor: real)
    ensures SetSum({}, f) == SetSum({}, g) * factor
  {
  }

  lemma Distributes(a: real, b: real, factor: real)
    ensures (a + b) * factor == a * factor + b * factor
  {
  }

  lemma PartMultiplied(w: Walker, record: Usage, m: Meter, factor: Decimal)
    requires Counted(record, m) ==> Multiplied(w, record, m, factor)
    ensures PartOf(w, record, Served)(m) == PartOf(w, record, Tiered)(m) * Value(factor)
  {
    hide Value, PricesOf, Sign, Multiplied, TimesPow10;
    if Counted(record, m) && PricesOf(w, record, m).Some? {
      ServedIsMultiplied(w, record, m, factor);
      Regroup(Value(PricesOf(w, record, m).value.tiered), Value(factor),
              TimesPow10(Value(record.tokens[m]), 0 - TOKENS_PER_MILLION));
    }
  }

  lemma Regroup(price: real, factor: real, tokens: real)
    ensures price * factor * tokens == price * tokens * factor
  {
  }

  /**
  Where every class with tokens was served in a region of one factor, the tokens as
  served cost that factor times what they cost at their tier: the residency premium is
  the factor less one of it.
  */
  lemma {:induction false} ResidencyMultiplies(w: Walker, records: seq<Usage>, factor: Decimal)
    requires forall i, m | 0 <= i < |records| && m in records[i].tokens :: Counted(records[i], m) ==>
             Multiplied(w, records[i], m, factor)
    ensures CostAt(w, records, Served) == CostAt(w, records, Tiered) * Value(factor)
  {
    hide Value, Counted, Multiplied, PartOf, SetSum;
    if records != [] {
      var init, last := records[..|records| - 1], records[|records| - 1];
      assert forall i | 0 <= i < |init| :: init[i] == records[i];
      ResidencyMultiplies(w, init, factor);
      PartsMultiplied(w, last, last.tokens.Keys, factor);
    }
  }

  lemma PartsAtFallback(w: Walker, record: Usage, meters: set<Meter>)
    requires forall m | m in meters && Counted(record, m) :: FallbackOnly(w, record, m)
    ensures SetSum(meters, PartOf(w, record, Tiered)) == SetSum(meters, PartOf(w, record, Standard))
  {
    hide Value, PricesOf, Counted, FallbackOnly, TimesPow10;
    forall m | m in meters
      ensures PartOf(w, record, Tiered)(m) == PartOf(w, record, Standard)(m)
    {
      if Counted(record, m) && PricesOf(w, record, m).Some? {
        NotedExactlyWhenFallback(w, record, m);
      }
    }
    SumOfSame(meters, PartOf(w, record, Tiered), PartOf(w, record, Standard));
  }

  /** Tiers the catalog does not name add nothing: their tokens cost the same at their tier as at the standard one. */
  lemma {:induction false} FallbackTiersAddNothing(w: Walker, records: seq<Usage>)
    requires forall i, m | 0 <= i < |records| && m in records[i].tokens :: Counted(records[i], m) ==>
             FallbackOnly(w, records[i], m)
    ensures CostAt(w, records, Tiered) == CostAt(w, records, Standard)
  {
    hide Counted, FallbackOnly, PartOf, SetSum;
    if records != [] {
      var init, last := records[..|records| - 1], records[|records| - 1];
      assert forall i | 0 <= i < |init| :: init[i] == records[i];
      FallbackTiersAddNothing(w, init);
      PartsAtFallback(w, last, last.tokens.Keys);
    }
  }

  lemma PartsAtStandard(w: Walker, record: Usage, basis: Basis)
    requires IsStandard(record)
    ensures SetSum(record.tokens.Keys, PartOf(w, record, basis)) ==
            SetSum(record.tokens.Keys, PartOf(w, record, Standard))
    ensures NotesAt(w, record, record.tokens.Keys) == {}
  {
    hide Value, PricesOf, Counted, IsStandard, TimesPow10;
    forall m
      ensures PartOf(w, record, basis)(m) == PartOf(w, record, Standard)(m)
      ensures PricesOf(w, record, m).Some? ==> PricesOf(w, record, m).value.note == ""
    {
      StandardPrices(w, record, m);
    }
    SumOfSame(record.tokens.Keys, PartOf(w, record, basis), PartOf(w, record, Standard));
  }

  /** Tokens all served at the standard tier in the global region cost the same at every basis, without a note. */
  lemma {:induction false} StandardHasNoPremium(w: Walker, records: seq<Usage>, basis: Basis)
    requires forall i | 0 <= i < |records| :: IsStandard(records[i])
    ensures CostAt(w, records, basis) == CostAt(w, records, Standard)
    ensures NotesOf(w, records) == {}
  {
    hide IsStandard, PartOf, SetSum, NotesAt;
    if records != [] {
      var init, last := records[..|records| - 1], records[|records| - 1];
      assert forall i | 0 <= i < |init| :: init[i] == records[i];
      StandardHasNoPremium(w, init, basis);
      PartsAtStandard(w, last, basis);
    }
  }

  /** A record some class of which has tokens that only a fallback row prices. */
  ghost predicate HasFallback(w: Walker, record: Usage) {
    exists m :: m in record.tokens && Counted(record, m) && FallbackOnly(w, record, m)
  }

  lemma RecordNotes(w: Walker, record: Usage, note: string)
    requires RecordPriced(w, record)
    ensures note in NotesAt(w, record, record.tokens.Keys) <==> HasFallback(w, record) && note == Note(record)
  {
    hide PricesOf, Note, FallbackOnly;
    forall m | m in record.tokens && Counted(record, m)
      ensures Priced(w, record, m) && PricesOf(w, record, m).Some?
      ensures PricesOf(w, record, m).value.note == if FallbackOnly(w, record, m) then Note(record) else ""
    {
      NotedExactlyWhenFallback(w, record, m);
    }
    if HasFallback(w, record) {
      var m :| m in record.tokens && Counted(record, m) && FallbackOnly(w, record, m);
      assert PricesOf(w, record, m).value.note == Note(record);
    }
  }

  lemma {:induction false} AllNotes(w: Walker, records: seq<Usage>, note: string)
    requires forall i | 0 <= i < |records| :: RecordPriced(w, records[i])
    ensures note in NotesOf(w, records) <==>
            exists i :: 0 <= i < |records| && HasFallback(w, records[i]) && note == Note(records[i])
  {
    hide RecordPriced, HasFallback, NotesAt, Note;
    if records != [] {
      var init, last := records[..|records| - 1], records[|records| - 1];
      assert forall i | 0 <= i < |init| :: init[i] == records[i];
      AllNotes(w, init, note);
      RecordNotes(w, last, note);
    }
  }

  /**
  The notes of a pricing name exactly the records some of whose tokens only a fallback
  row prices; without such a record there is no note.
  */
  lemma NotesNameFallbacks(p: Pricing, w: Walker, records: seq<Usage>, note: string)
    requires IsPricing(p, w, records) && forall i | 0 <= i < |records| :: RecordPriced(w, records[i])
    ensures note in p.notes <==>
            exists i :: 0 <= i < |records| && HasFallback(w, records[i]) && note == Note(records[i])
  {
    hide RecordPriced, HasFallback, NotesOf, Note, Value, CostAt, NoRepeats, IsNormal;
    AllNotes(w, records, note);
    assert note in p.notes <==> note in NoteSet(p.notes);
  }
}
