/**
 * The stacked service cards: each card's sticky offset and bottom margin by
 * index, the numbering of the items inside a card and the dividers between
 * them, and which card elements get an entrance animation.
 */
module Services {
  import opened Optional
  import opened Text
  import Seqs

  /** The media query `minWidth: 48rem`, i.e. 768 px. */
  const DesktopMinWidth: nat := 768

  predicate IsDesktop(viewportWidth: nat) {
    viewportWidth >= DesktopMinWidth
  }

  /**
   * A card's inline style. On desktop: `top: calc(10vh + {topEm}em)` and
   * `marginBottom: {marginRem}rem`; on mobile: `top: 0` and no margin.
   */
  datatype CardStyle = Sticky(topEm: nat, marginRem: nat) | Flat

  /** Card `index` of `count`. */
  function Style(isDesktop: bool, index: nat, count: nat): (st: CardStyle)
    requires index < count
    ensures st.Flat? <==> !isDesktop
    ensures st.Sticky? ==> st.topEm == 5 * index && st.marginRem == 5 * (count - index - 1)
  {
    if isDesktop then Sticky(index * 5, (count - index - 1) * 5) else Flat
  }

  /** The `top` value as the template literal renders it: the em offset reads back from the digits. */
  function TopCss(st: CardStyle): (t: string)
    ensures st.Flat? ==> t == "0"
    ensures st.Sticky? ==>
      && 16 <= |t| && t[..12] == "calc(10vh + " && t[|t| - 3..] == "em)"
      && AllDigits(t[12..|t| - 3]) && ValueOfDigits(t[12..|t| - 3]) == st.topEm
  {
    match st
    case Sticky(topEm, _) =>
      var t := "calc(10vh + " + Decimal(topEm) + "em)";
      assert t[12..|t| - 3] == Decimal(topEm);
      DecimalRoundTrip(topEm);
      t
    case Flat => "0"
  }

  /** The `marginBottom` value, absent on mobile: the rem margin reads back from the digits. */
  function MarginCss(st: CardStyle): (m: Option<string>)
    ensures m.Some? <==> st.Sticky?
    ensures m.Some? ==>
      && 4 <= |m.value| && m.value[|m.value| - 3..] == "rem"
      && AllDigits(m.value[..|m.value| - 3]) && ValueOfDigits(m.value[..|m.value| - 3]) == st.marginRem
  {
    match st
    case Sticky(_, marginRem) =>
      var t := Decimal(marginRem) + "rem";
      assert t[..|t| - 3] == Decimal(marginRem);
      DecimalRoundTrip(marginRem);
      Some(t)
    case Flat => None
  }

  /**
   * Every desktop card's offset plus margin is the same, 5 (n - 1): the cards
   * pin at staggered heights and each leaves room for the ones after it.
   * Each margin is 5 less than the one before, and the last card's is 0.
   */
  lemma StackGeometry(count: nat, i: nat)
    requires i < count
    ensures Style(true, i, count).topEm + Style(true, i, count).marginRem == 5 * (count - 1)
    ensures i + 1 < count ==> Style(true, i + 1, count).marginRem + 5 == Style(true, i, count).marginRem
    ensures i + 1 < count ==> Style(true, i + 1, count).topEm == Style(true, i, count).topEm + 5
    ensures i + 1 == count ==> Style(true, i, count).marginRem == 0
  {
  }

  /** Distinct desktop cards pin at distinct offsets. */
  lemma DistinctOffsets(count: nat, i: nat, j: nat)
    requires i < count && j < count && i != j
    ensures TopCss(Style(true, i, count)) != TopCss(Style(true, j, count))
  {
  }

  // ---------------------------------------------------------------------
  // Items inside a card.

  /** `0{itemIndex + 1}`: a literal "0" before the one-based number, with no padding logic. */
  function ItemLabel(itemIndex: nat): (t: string)
    ensures |t| >= 2 && t[0] == '0'
    ensures AllDigits(t)
  {
    "0" + Decimal(itemIndex + 1)
  }

  /** The tenth item reads "010". */
  lemma TenthLabel()
    ensures ItemLabel(9) == "010"
  {
  }

  /** Distinct items carry distinct labels, and a label reads back as its one-based position. */
  lemma {:induction false} ItemLabelsDistinct(i: nat, j: nat)
    ensures ItemLabel(i) == ItemLabel(j) <==> i == j
    ensures ValueOfDigits(ItemLabel(i)[1..]) == i + 1
  {
    assert ItemLabel(i)[1..] == Decimal(i + 1);
    DecimalRoundTrip(i + 1);
    if ItemLabel(i) == ItemLabel(j) {
      assert Decimal(i + 1) == ItemLabel(i)[1..] == ItemLabel(j)[1..] == Decimal(j + 1);
      DecimalInjective(i + 1, j + 1);
    }
  }

  /** One rendered item: its label, and whether a divider follows it. */
  datatype ItemRow = ItemRow(caption: string, divider: bool)

  /** The rows of a card with `count` items. */
  function ItemRows(count: nat): (rows: seq<ItemRow>)
    ensures |rows| == count
    ensures forall i :: 0 <= i < count ==> rows[i].caption == ItemLabel(i)
    ensures forall i :: 0 <= i < count ==> (rows[i].divider <==> i < count - 1)
  {
    seq(count, i requires 0 <= i < count => ItemRow(ItemLabel(i), i < count - 1))
  }

  predicate HasDivider(row: ItemRow) {
    row.divider
  }

  /** Rows whose every row but the last has a divider hold one divider fewer than rows. */
  lemma {:induction false} DividersBetween(rows: seq<ItemRow>)
    requires |rows| > 0
    requires forall i :: 0 <= i < |rows| ==> (rows[i].divider <==> i < |rows| - 1)
    ensures |Seqs.Filter(rows, HasDivider)| == |rows| - 1
  {
    var n := |rows|;
    var front, last := rows[..n - 1], [rows[n - 1]];
    assert rows == front + last;
    Seqs.FilterConcat(front, last, HasDivider);
    Seqs.FilterKeepsAll(front, HasDivider);
    Seqs.FilterNone(last, HasDivider);
  }

  /** A card with `count` items draws `count - 1` dividers: one between each pair of neighbours. */
  lemma DividerCount(count: nat)
    requires count > 0
    ensures |Seqs.Filter(ItemRows(count), HasDivider)| == count - 1
  {
    DividersBetween(ItemRows(count));
  }

  // ---------------------------------------------------------------------
  // Entrance animations.

  /** The elements the ref callbacks stored, by card index (`null` after unmount). */
  function AnimatedCards(refs: seq<Option<nat>>): (cards: seq<Option<nat>>)
    ensures forall c :: c in cards ==> c.Some?
    ensures forall i :: 0 <= i < |refs| && refs[i].Some? ==> refs[i] in cards
    ensures Seqs.IsSubsequence(cards, refs)
  {
    Seqs.Filter(refs, (el: Option<nat>) => el.Some?)
  }

  /** With every card mounted, every card is animated, in order. */
  lemma AllMountedAllAnimated(refs: seq<Option<nat>>)
    requires forall i :: 0 <= i < |refs| ==> refs[i].Some?
    ensures AnimatedCards(refs) == refs
  {
    Seqs.FilterKeepsAll(refs, (el: Option<nat>) => el.Some?);
  }
}
