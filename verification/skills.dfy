/**
 * The skills marquee: the guard against missing data, the keyword
 * classifier that picks a card's icon and colours, the three-copy strip, the
 * click-to-select toggle keyed by "skillIndex-copyIndex", and the title /
 * subtitle split of a skill name on '/'.
 */
module Skills {
  import opened Optional
  import opened Text

  datatype Skill = Skill(name: string, level: int)

  /** The `skills` prop as JavaScript may pass it. */
  datatype SkillsProp = Missing | NotAnArray | Items(skills: seq<Skill>)

  // ---------------------------------------------------------------------
  // Classification.

  datatype Brand = ReactLogo | JavaScriptLogo | NodeLogo | LaravelLogo | PostgresLogo | FigmaLogo | CodeTags

  datatype IconData = IconData(icon: string, color: string, bg: string)

  /** The icon, colour and gradient each brand stands for. */
  function Style(b: Brand): IconData {
    match b
    case ReactLogo => IconData("logos:react", "#61DAFB", "from-blue-500/20 to-cyan-400/20")
    case JavaScriptLogo => IconData("logos:javascript", "#F7DF1E", "from-yellow-500/20 to-orange-400/20")
    case NodeLogo => IconData("logos:nodejs-icon", "#68A063", "from-green-500/20 to-emerald-400/20")
    case LaravelLogo => IconData("logos:laravel", "#FF2D20", "from-red-500/20 to-pink-400/20")
    case PostgresLogo => IconData("logos:postgresql", "#336791", "from-purple-500/20 to-indigo-400/20")
    case FigmaLogo => IconData("logos:figma", "#F24E1E", "from-pink-500/20 to-rose-400/20")
    case CodeTags => IconData("mdi:code-tags", "#6B7280", "from-gray-500/20 to-gray-400/20")
  }

  /** A classification rule: any keyword occurring in the lower-cased name selects the brand. */
  datatype Rule = Rule(keywords: seq<string>, brand: Brand)

  /** The rules in the order they are tried. */
  const Rules: seq<Rule> := [
    Rule(["react", "next"], ReactLogo),
    Rule(["javascript", "typescript"], JavaScriptLogo),
    Rule(["node", "express"], NodeLogo),
    Rule(["php", "laravel"], LaravelLogo),
    Rule(["database", "sql"], PostgresLogo),
    Rule(["ui", "ux", "design"], FigmaLogo)
  ]

  predicate Matches(name: string, rule: Rule) {
    exists k | 0 <= k < |rule.keywords| :: Contains(name, rule.keywords[k])
  }

  lemma MatchesPair(name: string, rule: Rule)
    requires |rule.keywords| == 2
    ensures Matches(name, rule) <==> Contains(name, rule.keywords[0]) || Contains(name, rule.keywords[1])
  {
  }

  lemma MatchesTriple(name: string, rule: Rule)
    requires |rule.keywords| == 3
    ensures Matches(name, rule) <==>
      Contains(name, rule.keywords[0]) || Contains(name, rule.keywords[1]) || Contains(name, rule.keywords[2])
  {
  }

  /** No rule before position `i` matches. */
  predicate NoEarlierMatch(name: string, i: int)
    requires i <= |Rules|
  {
    forall j | 0 <= j < i :: !Matches(name, Rules[j])
  }

  /**
   * `getSkillIcon`'s choice: the brand of the first rule with a keyword in the
   * lower-cased name, or the code-tags default when no rule has one.
   */
  function Classify(skillName: string): (b: Brand)
    ensures forall i | 0 <= i < |Rules| ::
      b == Rules[i].brand <==> Matches(Lower(skillName), Rules[i]) && NoEarlierMatch(Lower(skillName), i)
    ensures b == CodeTags <==> NoEarlierMatch(Lower(skillName), |Rules|)
  {
    var name := Lower(skillName);
    MatchesPair(name, Rules[0]);
    MatchesPair(name, Rules[1]);
    MatchesPair(name, Rules[2]);
    MatchesPair(name, Rules[3]);
    MatchesPair(name, Rules[4]);
    MatchesTriple(name, Rules[5]);
    if Contains(name, "react") || Contains(name, "next") then ReactLogo
    else if Contains(name, "javascript") || Contains(name, "typescript") then JavaScriptLogo
    else if Contains(name, "node") || Contains(name, "express") then NodeLogo
    else if Contains(name, "php") || Contains(name, "laravel") then LaravelLogo
    else if Contains(name, "database") || Contains(name, "sql") then PostgresLogo
    else if Contains(name, "ui") || Contains(name, "ux") || Contains(name, "design") then FigmaLogo
    else CodeTags
  }

  /** `getSkillIcon`: the chosen brand's icon data; the icon alone tells which rule fired. */
  function SkillIcon(skillName: string): (r: IconData)
    ensures r.icon == "mdi:code-tags" <==> NoEarlierMatch(Lower(skillName), |Rules|)
    ensures forall i | 0 <= i < |Rules| ::
      r.icon == Style(Rules[i].brand).icon <==> Matches(Lower(skillName), Rules[i]) && NoEarlierMatch(Lower(skillName), i)
  {
    Style(Classify(skillName))
  }

  /** Case does not matter: a name and its lower-cased form get the same brand. */
  lemma ClassifyIgnoresCase(skillName: string)
    ensures Classify(Lower(skillName)) == Classify(skillName)
  {
    LowerIdempotent(skillName);
  }

  /** "react" wins over every later keyword, such as "node", because it is tried first. */
  lemma ReactKeywordWins(skillName: string)
    requires Contains(Lower(skillName), "react")
    ensures Classify(skillName) == ReactLogo
  {
  }

  // ---------------------------------------------------------------------
  // The three-copy strip.

  /** Number of copies of the skill list laid side by side (the strip is 300% wide). */
  const Copies: nat := 3

  datatype Card = Card(skillIndex: nat, copyIndex: nat)

  /** One copy of the skill list. */
  function CopyRow(copyIndex: nat, count: nat): (row: seq<Card>)
    ensures |row| == count
    ensures forall s :: 0 <= s < count ==> row[s] == Card(s, copyIndex)
  {
    seq(count, s requires 0 <= s < count => Card(s, copyIndex))
  }

  /** The cards in render order: `[0, 1, 2].map(copy => skills.map(...))`. */
  function Strip(count: nat): (cards: seq<Card>)
    ensures |cards| == Copies * count
    ensures forall p :: 0 <= p < |cards| ==>
      cards[p] == if p < count then Card(p, 0)
                  else if p < 2 * count then Card(p - count, 1)
                  else Card(p - 2 * count, 2)
  {
    CopyRow(0, count) + CopyRow(1, count) + CopyRow(2, count)
  }

  /** Every (skill, copy) pair is rendered, and no two positions render the same pair. */
  lemma StripCoversEachPairOnce(count: nat, s: nat, c: nat)
    requires s < count && c < Copies
    ensures Card(s, c) in Strip(count)
    ensures forall p, q :: 0 <= p < q < |Strip(count)| ==> Strip(count)[p] != Strip(count)[q]
  {
  }

  /**
   * Shifting the strip left by one copy's width (one third of 300%) lands
   * every card on a card of the same skill, so the loop restarts seamlessly.
   */
  lemma StripShiftByOneCopy(count: nat, p: nat)
    requires p + count < |Strip(count)|
    ensures Strip(count)[p + count].skillIndex == Strip(count)[p].skillIndex
    ensures Strip(count)[p + count].copyIndex == Strip(count)[p].copyIndex + 1
  {
  }

  // ---------------------------------------------------------------------
  // What the component renders.

  datatype Render = Placeholder | Marquee(cards: seq<Card>)

  /** The empty-data guard, then the strip. */
  function Show(prop: SkillsProp): (r: Render)
    ensures r.Placeholder? <==> !prop.Items? || |prop.skills| == 0
    ensures r.Marquee? ==> |r.cards| == Copies * |prop.skills|
    ensures r.Marquee? ==> r.cards == Strip(|prop.skills|)
  {
    match prop
    case Items(skills) => if |skills| == 0 then Placeholder else Marquee(Strip(|skills|))
    case _ => Placeholder
  }

  // ---------------------------------------------------------------------
  // Selection.

  /** The key of a card: `${skillIndex}-${copyIndex}`. */
  function CardKey(card: Card): (k: string)
    ensures '-' in k
  {
    assert (Decimal(card.skillIndex) + "-" + Decimal(card.copyIndex))[|Decimal(card.skillIndex)|] == '-';
    Decimal(card.skillIndex) + "-" + Decimal(card.copyIndex)
  }

  /** Distinct cards have distinct keys. */
  lemma {:induction false} CardKeyInjective(a: Card, b: Card)
    requires CardKey(a) == CardKey(b)
    ensures a == b
  {
    var sa, sb := Decimal(a.skillIndex), Decimal(b.skillIndex);
    var ca, cb := Decimal(a.copyIndex), Decimal(b.copyIndex);
    var k := CardKey(a);
    assert k == sa + "-" + ca && k == sb + "-" + cb;
    assert sa == k[..|sa|] == sb;
    assert ca == k[|sa| + 1..] == cb;
    DecimalInjective(a.skillIndex, b.skillIndex);
    DecimalInjective(a.copyIndex, b.copyIndex);
  }

  /** `handleSkillClick`: select the clicked card's key, or clear it if it was already selected. */
  function ClickCard(selected: Option<string>, card: Card): (r: Option<string>)
    ensures r.Some? <==> selected != Some(CardKey(card))
    ensures r.Some? ==> r.value == CardKey(card)
  {
    var key := CardKey(card);
    if selected == Some(key) then None else Some(key)
  }

  /** Clicking the same card twice restores the selection it started from, whenever that was empty or this card. */
  lemma ClickTwice(selected: Option<string>, card: Card)
    requires selected.None? || selected == Some(CardKey(card))
    ensures ClickCard(ClickCard(selected, card), card) == selected
  {
  }

  predicate IsSelected(selected: Option<string>, card: Card) {
    selected == Some(CardKey(card))
  }

  /** The details panel is rendered while some key is selected. */
  predicate DetailsShown(selected: Option<string>) {
    selected.Some?
  }

  /** The details panel's close button: `setSelectedSkill(null)`. */
  function CloseDetails(selected: Option<string>): (r: Option<string>)
    ensures !DetailsShown(r)
    ensures forall card :: !IsSelected(r, card)
  {
    None
  }

  /** After closing, clicking any card selects exactly that card. */
  lemma {:induction false} ClickAfterClose(selected: Option<string>, clicked: Card, card: Card)
    ensures IsSelected(ClickCard(CloseDetails(selected), clicked), card) <==> card == clicked
  {
    if IsSelected(ClickCard(CloseDetails(selected), clicked), card) {
      CardKeyInjective(card, clicked);
    }
  }

  /** At most one card of the strip is highlighted, and it is the one last clicked. */
  lemma {:induction false} AtMostOneSelected(selected: Option<string>, clicked: Card, a: Card, b: Card)
    requires IsSelected(ClickCard(selected, clicked), a)
    requires IsSelected(ClickCard(selected, clicked), b)
    ensures a == b == clicked
  {
    CardKeyInjective(a, clicked);
    CardKeyInjective(b, clicked);
  }

  // ---------------------------------------------------------------------
  // Title and subtitle.

  /** `name.split('/')[0]`. */
  function Title(name: string): (t: string)
    ensures '/' !in t
    ensures t <= name
    ensures |t| < |name| ==> name[|t|] == '/'
  {
    JoinSplit(name, '/');
    var parts := Split(name, '/');
    assert |parts| > 1 ==> name == parts[0] + ['/'] + Join(parts[1..], '/');
    parts[0]
  }

  /** `name.split('/')[1]`, rendered only when the name has a '/'. */
  function Subtitle(name: string): (s: Option<string>)
    ensures s.Some? <==> '/' in name
    ensures s.Some? ==> '/' !in s.value
    ensures s.Some? ==> exists rest :: name == Title(name) + "/" + s.value + rest && (rest == "" || rest[0] == '/')
  {
    if '/' in name then
      JoinSplit(name, '/');
      var parts := Split(name, '/');
      var rest := if |parts| == 2 then "" else ['/'] + Join(parts[2..], '/');
      assert name == parts[0] + ['/'] + Join(parts[1..], '/');
      assert Join(parts[1..], '/') == parts[1] + rest;
      assert name == Title(name) + "/" + parts[1] + rest;
      Some(parts[1])
    else None
  }
}
