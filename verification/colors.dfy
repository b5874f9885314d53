/** The colour map: a marketplace's brand colour and event class, chosen
    by exact match on the lower-cased name, and a department's colour,
    chosen by the first known department code the upper-cased name
    contains. */
module Colors {
  import opened Strings
  import opened Types

  const OzonColor: string := "#0051E7"
  const WildberriesColor: string := "#CB11AB"
  const YandexColor: string := "#FFCC00"
  const OtherColor: string := "#6B7280"

  /** `getMarketplaceColor`: a `switch` on the lower-cased name. */
  function MarketplaceColor(marketplace: string): (c: string)
    ensures c == OzonColor <==> Lower(marketplace) == "ozon"
    ensures c == WildberriesColor <==> Lower(marketplace) == "wildberries"
    ensures c == YandexColor <==> Lower(marketplace) == "яндекс.маркет"
    ensures c == OtherColor || c == OzonColor || c == WildberriesColor || c == YandexColor
  {
    var l := Lower(marketplace);
    if l == "ozon" then OzonColor
    else if l == "wildberries" then WildberriesColor
    else if l == "яндекс.маркет" then YandexColor
    else OtherColor
  }

  /** The three canonical labels each get their brand colour. */
  lemma LabelColors()
    ensures MarketplaceColor(Wildberries) == WildberriesColor
    ensures MarketplaceColor(Ozon) == OzonColor
    ensures MarketplaceColor(YandexMarket) == YandexColor
  {
    assert Lower(Wildberries) == "wildberries";
    assert Lower(Ozon) == "ozon";
    assert Lower(YandexMarket) == "яндекс.маркет";
  }

  /** The match is exact: a longer name that merely starts with "ozon"
      gets the neutral colour. */
  lemma ExactMatchOnly(marketplace: string, rest: string)
    requires Lower(marketplace) == "ozon" + rest && rest != []
    ensures MarketplaceColor(marketplace) == OtherColor
  {
    var l := Lower(marketplace);
    assert l[0] == 'o';
    assert |l| > 4;
  }

  const Black: string := "#000000"

  /** The known department codes and their colours, in test order. */
  const DepartmentCodes: seq<string> := ["ИП ЦНМ", "ИП БАЕ", "ИП БРМ", "ИП БЕС", "ИП БСМ"]
  const DepartmentColors: seq<string> := ["#8A2BE2", "#1E90FF", "#2E8B57", "#FF69B4", "#DC143C"]

  /** The colour of the first code from position `j` on that `upper`
      contains, else black. */
  function FirstCodeColor(upper: string, j: nat): (c: string)
    requires j <= |DepartmentCodes|
    ensures c == Black || exists i :: j <= i < |DepartmentCodes| && c == DepartmentColors[i]
    ensures forall i :: j <= i < |DepartmentCodes| ==>
      (c == DepartmentColors[i] <==>
        Contains(upper, DepartmentCodes[i]) && forall h :: j <= h < i ==> !Contains(upper, DepartmentCodes[h]))
    decreases |DepartmentCodes| - j
  {
    if j == |DepartmentCodes| then Black
    else if Contains(upper, DepartmentCodes[j]) then DepartmentColors[j]
    else FirstCodeColor(upper, j + 1)
  }

  /** `getDepartmentColor`: black for no department; otherwise the colour
      of the first code the upper-cased name contains, else black. */
  function DepartmentColor(department: string): (c: string)
    ensures department == "" ==> c == Black
    ensures c == Black || c in DepartmentColors
    ensures department != "" ==> forall i :: 0 <= i < |DepartmentCodes| ==>
      (c == DepartmentColors[i] <==>
        Contains(Upper(department), DepartmentCodes[i]) &&
        forall h :: 0 <= h < i ==> !Contains(Upper(department), DepartmentCodes[h]))
  {
    if department == "" then Black else FirstCodeColor(Upper(department), 0)
  }

  /** A name holding an earlier code gets that code's colour even when it
      also holds a later one. */
  lemma EarlierCodeWins(department: string, i: nat)
    requires i < |DepartmentCodes| && department != ""
    requires Contains(Upper(department), DepartmentCodes[i])
    ensures DepartmentColor(department) in DepartmentColors[..i + 1]
  {
    var h := FirstContainedCode(Upper(department), i);
    assert DepartmentColor(department) == DepartmentColors[h];
    assert DepartmentColors[..i + 1][h] == DepartmentColors[h];
  }

  /** The first code, up to position `i`, that `upper` contains. */
  lemma FirstContainedCode(upper: string, i: nat) returns (h: nat)
    requires i < |DepartmentCodes| && Contains(upper, DepartmentCodes[i])
    ensures h <= i && Contains(upper, DepartmentCodes[h])
    ensures forall g :: 0 <= g < h ==> !Contains(upper, DepartmentCodes[g])
    decreases i
  {
    if g :| 0 <= g < i && Contains(upper, DepartmentCodes[g]) {
      h := FirstContainedCode(upper, g);
    } else {
      h := i;
    }
  }

  const BaseClass: string := "rounded-lg p-1.5 text-sm font-semibold shadow-sm border"
  const OzonClass: string := "bg-blue-50 text-blue-950 drop-shadow-sm border-blue-300 hover:bg-blue-100 transition-colors duration-150"
  const WildberriesClass: string := "bg-purple-50 text-purple-950 drop-shadow-sm border-purple-300 hover:bg-purple-100 transition-colors duration-150"
  const YandexClass: string := "bg-yellow-50 text-neutral-900 drop-shadow-sm border-yellow-300 hover:bg-yellow-100 transition-colors duration-150"
  const OtherClass: string := "bg-neutral-50 text-neutral-900 border-neutral-300 hover:bg-neutral-100 transition-colors duration-150"

  /** The marketplace part of `getEventClassNames`: its own `switch` on
      the lower-cased name. */
  function ClassSuffix(marketplace: string): string {
    var l := Lower(marketplace);
    if l == "ozon" then OzonClass
    else if l == "wildberries" then WildberriesClass
    else if l == "яндекс.маркет" then YandexClass
    else OtherClass
  }

  /** `getEventClassNames`: always the base class, then the marketplace's
      classes. */
  function EventClassNames(marketplace: string): (c: string)
    ensures StartsWith(c, BaseClass + " ")
  {
    var c := BaseClass + " " + ClassSuffix(marketplace);
    assert c[..|BaseClass + " "|] == BaseClass + " ";
    c
  }

  /** The class and the colour follow the same cases: a non-neutral class
      exactly when a non-neutral colour, and two names share a class
      exactly when they share a colour. */
  lemma ClassFollowsColor(a: string, b: string)
    ensures ClassSuffix(a) != OtherClass <==> MarketplaceColor(a) != OtherColor
    ensures EventClassNames(a) == EventClassNames(b) <==> MarketplaceColor(a) == MarketplaceColor(b)
  {
    var prefix := BaseClass + " ";
    if EventClassNames(a) == EventClassNames(b) {
      assert EventClassNames(a)[|prefix|..] == ClassSuffix(a);
      assert EventClassNames(b)[|prefix|..] == ClassSuffix(b);
    }
  }
}
