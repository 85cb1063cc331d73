/**
 * The pure helpers of the competency page: converting between an AC code
 * (`AC11.01`) and the id of its SVG group (`AC1101`), choosing colours, and
 * finding the AC group an SVG click landed in.
 */
module Codes {
  import opened Wrappers
  import opened Text

  /** `AC` followed by two digits, a dot and two digits, e.g. `AC11.01`. */
  predicate IsACCode(code: string) {
    |code| == 7 && code[..2] == "AC" && AllDigits(code[2..4]) && code[4] == '.' && AllDigits(code[5..])
  }

  /** A whole id matching `^(AC\d{2})(\d{2})$`, e.g. `AC1101`. */
  predicate IsSvgId(id: string) {
    |id| == 6 && id[..2] == "AC" && AllDigits(id[2..])
  }

  /** The position of the first `c` in `s`, if any. */
  function IndexOf(s: string, c: char): (r: Option<nat>)
    ensures r.None? <==> c !in s
    ensures r.Some? ==> r.value < |s| && s[r.value] == c && c !in s[..r.value]
  {
    if s == [] then None
    else if s[0] == c then Some(0)
    else match IndexOf(s[1..], c)
      case None => None
      case Some(i) =>
        assert s[..i + 1] == [s[0]] + s[1..][..i];
        Some(i + 1)
  }

  /** `acCode.replace(".", "")`: a string pattern, so only the first dot goes. */
  function ConvertACCodeToSVGId(code: string): (id: string)
    ensures '.' !in code ==> id == code
    ensures '.' in code ==> |id| == |code| - 1 && exists i :: 0 <= i < |code| && code[i] == '.' && '.' !in code[..i] && id == code[..i] + code[i + 1..]
  {
    match IndexOf(code, '.')
    case None => code
    case Some(i) => code[..i] + code[i + 1..]
  }

  /** `acId.replace(/^(AC\d{2})(\d{2})$/, "$1.$2")`: any other id is returned unchanged. */
  function SvgIdToACCode(id: string): (code: string)
    ensures IsSvgId(id) ==> IsACCode(code) && code[..4] == id[..4] && code[5..] == id[4..]
    ensures !IsSvgId(id) ==> code == id
  {
    if IsSvgId(id) then
      var code := id[..4] + "." + id[4..];
      assert code[..2] == id[..2] && code[2..4] == id[2..4] && code[5..] == id[4..];
      assert AllDigits(id[2..4]) && AllDigits(id[4..]) by {
        assert id[2..4] == id[2..][..2] && id[4..] == id[2..][2..];
      }
      code
    else id
  }

  /** An AC code becomes an SVG id that the click handler turns back into the same code. */
  lemma CodeToIdRoundTrip(code: string)
    requires IsACCode(code)
    ensures IsSvgId(ConvertACCodeToSVGId(code))
    ensures SvgIdToACCode(ConvertACCodeToSVGId(code)) == code
  {
    assert '.' !in code[..4];
    assert code[4] == '.';
    var id := ConvertACCodeToSVGId(code);
    assert IndexOf(code, '.') == Some(4);
    assert id == code[..4] + code[5..];
    assert id[..4] + "." + id[4..] == code;
  }

  /** An SVG id of an AC becomes a code that converts back to the same id. */
  lemma IdToCodeRoundTrip(id: string)
    requires IsSvgId(id)
    ensures IsACCode(SvgIdToACCode(id))
    ensures ConvertACCodeToSVGId(SvgIdToACCode(id)) == id
  {
    var code := SvgIdToACCode(id);
    assert '.' !in code[..4];
    assert IndexOf(code, '.') == Some(4);
    assert code[..4] + code[5..] == id;
  }

  /** `acCode.substring(2, 4)`: both bounds are clamped to the length of the string. */
  function CompetenceCode(code: string): (cc: string)
    ensures |code| >= 4 ==> cc == code[2..4]
    ensures |cc| == if |code| >= 4 then 2 else if |code| >= 2 then |code| - 2 else 0
  {
    var lo := if |code| < 2 then |code| else 2;
    var hi := if |code| < 4 then |code| else 4;
    code[lo..hi]
  }

  /** `Math.max(0, Math.min(5, level || 0))`: a missing level counts as 0. */
  function ClampLevel(level: Option<int>): (l: nat)
    ensures l <= 5
    ensures level.None? ==> l == 0
    ensures level.Some? && 0 <= level.value <= 5 ==> l == level.value
    ensures level.Some? && level.value < 0 ==> l == 0
    ensures level.Some? && level.value > 5 ==> l == 5
  {
    var v := level.GetOr(0);
    if v < 0 then 0 else if v > 5 then 5 else v
  }

  /** `M.getACColor`: the CSS variable `var(--color-XX-L)` for an AC code and level. */
  function GetACColor(code: string, level: Option<int>): (color: string)
    ensures color == "var(--color-" + CompetenceCode(code) + "-" + [DigitChar(ClampLevel(level))] + ")"
  {
    "var(--color-" + CompetenceCode(code) + "-" + IntToString(ClampLevel(level)) + ")"
  }

  /** Two levels give an AC the same colour exactly when they clamp to the same level. */
  lemma ColorDistinguishesClampedLevels(code: string, a: Option<int>, b: Option<int>)
    ensures GetACColor(code, a) == GetACColor(code, b) <==> ClampLevel(a) == ClampLevel(b)
  {
    var prefix := "var(--color-" + CompetenceCode(code) + "-";
    if GetACColor(code, a) == GetACColor(code, b) {
      assert GetACColor(code, a)[|prefix|] == DigitChar(ClampLevel(a));
      assert GetACColor(code, b)[|prefix|] == DigitChar(ClampLevel(b));
    }
  }

  /** `M.getVectorStrokeColor`: AC13 strokes are white at levels 0 and 1, black above; None is `null`. */
  function GetVectorStrokeColor(code: string, level: int): (stroke: Option<string>)
    ensures stroke.Some? <==> StartsWith(code, "AC13")
    ensures stroke == Some("white") <==> StartsWith(code, "AC13") && (level == 0 || level == 1)
    ensures stroke == Some("black") <==> StartsWith(code, "AC13") && level != 0 && level != 1
  {
    if StartsWith(code, "AC13") then
      if level == 0 || level == 1 then Some("white") else Some("black")
    else None
  }

  /** An id that matches `^(AC\d{4})`, e.g. `AC1106__Content`. */
  predicate MatchesACId(id: string) {
    |id| >= 6 && id[..2] == "AC" && AllDigits(id[2..6])
  }

  /**
   * `V.findACIdFromTarget`: walks from the clicked element up through its
   * ancestors (`ids` lists their ids, from the target up to but excluding the
   * SVG root; an element without an id has the id "") and returns the `AC` and
   * four digits that start the first matching id.
   */
  method FindACIdFromTarget(ids: seq<string>) returns (r: Option<string>)
    ensures r.None? <==> forall i :: 0 <= i < |ids| ==> !MatchesACId(ids[i])
    ensures r.Some? ==> IsSvgId(r.value)
    ensures r.Some? ==> exists i :: 0 <= i < |ids| && MatchesACId(ids[i]) && r.value == ids[i][..6] &&
                                    (forall k :: 0 <= k < i ==> !MatchesACId(ids[k]))
  {
    var depth := 0;
    while depth < |ids|
      invariant 0 <= depth <= |ids|
      invariant forall k :: 0 <= k < depth ==> !MatchesACId(ids[k])
    {
      var id := ids[depth];
      if id != "" && StartsWith(id, "AC") {
        if MatchesACId(id) {
          return Some(id[..6]);
        }
      }
      depth := depth + 1;
    }
    return None;
  }
}
