/**
 * The animated weather icon: which of five icons a WMO weather
 * interpretation code (code table 4677 of the WMO Manual on Codes, as served
 * by Open-Meteo) is drawn with, and the CSS class list the icon's `svg` gets
 * from its size and the caller's class name.
 */
module WeatherIcons {

  import opened Wrappers
  import opened Text

  datatype Size = Sm | Md | Lg

  /** The Tailwind width and height classes per size. */
  function SizeClass(size: Size): (c: string)
    ensures |c| > 0 && c[0] == 'w' && !IsJsWhitespace(c[0]) && !IsJsWhitespace(c[|c| - 1])
  {
    match size
    case Sm => "w-5 h-5"
    case Md => "w-7 h-7"
    case Lg => "w-10 h-10"
  }

  datatype Icon = Sun | Cloud | Rain | Snow | Thunder

  /** The classifier, test by test in the order written; anything unlisted is a cloud. */
  function Classify(code: int): (icon: Icon)
    ensures code !in ListedCodes ==> icon == Cloud
    ensures icon == Thunder ==> code == 95
  {
    if code == 0 || code == 1 then Sun
    else if code == 2 || code == 3 || code == 45 || code == 48 then Cloud
    else if code in [51, 53, 55, 61, 63, 65, 80, 81, 82] then Rain
    else if code in [71, 73, 75] then Snow
    else if code == 95 then Thunder
    else Cloud
  }

  /* The code groups as sets: the reference the classifier is checked against. */

  const SunCodes: set<int> := {0, 1}
  const CloudCodes: set<int> := {2, 3, 45, 48}
  const RainCodes: set<int> := {51, 53, 55, 61, 63, 65, 80, 81, 82}
  const SnowCodes: set<int> := {71, 73, 75}
  const ThunderCodes: set<int> := {95}

  /** Every code the classifier names explicitly. */
  const ListedCodes: set<int> := SunCodes + CloudCodes + RainCodes + SnowCodes + ThunderCodes

  /** The five groups share no code. */
  lemma GroupsDisjoint()
    ensures SunCodes * CloudCodes == {} && SunCodes * RainCodes == {} && SunCodes * SnowCodes == {}
    ensures SunCodes * ThunderCodes == {} && CloudCodes * RainCodes == {} && CloudCodes * SnowCodes == {}
    ensures CloudCodes * ThunderCodes == {} && RainCodes * SnowCodes == {} && RainCodes * ThunderCodes == {}
    ensures SnowCodes * ThunderCodes == {}
  {
  }

  /**
   * Each icon is drawn for exactly its group's codes, and a cloud also for
   * every code outside all groups.
   */
  lemma ClassifyMatchesGroups(code: int)
    ensures Classify(code) == Sun <==> code in SunCodes
    ensures Classify(code) == Rain <==> code in RainCodes
    ensures Classify(code) == Snow <==> code in SnowCodes
    ensures Classify(code) == Thunder <==> code in ThunderCodes
    ensures Classify(code) == Cloud <==> code in CloudCodes || code !in ListedCodes
  {
  }

  /** The caller's class name as the icon passes it on: missing becomes empty, then trimmed. */
  function MergedClassName(className: Option<string>): (m: string)
    ensures m == "" || (!IsJsWhitespace(m[0]) && !IsJsWhitespace(m[|m| - 1]))
  {
    Trim(className.GetOr(""))
  }

  /** The `svg` class list: the size classes (medium by default), a space and the merged class name, trimmed. */
  function IconClass(size: Option<Size>, className: Option<string>): (c: string) {
    Trim(SizeClass(size.GetOr(Md)) + " " + MergedClassName(className))
  }

  /** The class list is the size classes alone, or followed by one space and the trimmed class name. */
  lemma IconClassShape(size: Option<Size>, className: Option<string>)
    ensures var m := MergedClassName(className);
            IconClass(size, className) == if m == "" then SizeClass(size.GetOr(Md)) else SizeClass(size.GetOr(Md)) + " " + m
  {
    TrimSpaceJoin(SizeClass(size.GetOr(Md)), MergedClassName(className));
  }

  /** Without a size the icon is medium: "w-7 h-7". */
  lemma DefaultSizeIsMedium(className: Option<string>)
    ensures IconClass(None, className) == IconClass(Some(Md), className)
    ensures className.None? ==> IconClass(None, className) == "w-7 h-7"
  {
    IconClassShape(None, className);
  }
}
