/**
 * `DateHistoryView`: the list of dates at which an AC reached each level,
 * shown in its info panel. Formatting a stored date for display is a
 * parameter; the fragment built from the HTML is represented by that HTML.
 */
module DateHistory {
  import Text
  import KeyOrder
  import Ledger

  const Opening := "<div class=\"date-history\">"
  const Title := "<div class=\"date-history-title\" style=\"margin-top: 10px;\"><strong>Historique :</strong></div>"
  const Closing := "</div>"

  /** The line for one level and its formatted date. */
  function DateItem(level: int, formatted: string): string {
    "<div class=\"date-item\">Niveau " + Text.IntToString(level) + " atteint le " + formatted + "</div>"
  }

  /** The lines of `dates`, one per key, in the order `for…in` visits integer keys. */
  function ItemLines(dates: map<int, string>, formatDate: string -> string): (lines: seq<string>)
    ensures |lines| == |dates|
  {
    var keys := KeyOrder.Ascending(dates.Keys);
    seq(|keys|, i requires 0 <= i < |keys| => DateItem(keys[i], formatDate(dates[keys[i]])))
  }

  function Concat(lines: seq<string>): string {
    if lines == [] then "" else Concat(lines[..|lines| - 1]) + lines[|lines| - 1]
  }

  /** What `html(ac)` returns for `ac.dates == dates`. */
  function DateHistoryHtml(dates: map<int, string>, formatDate: string -> string): string {
    if |dates| == 0 then ""
    else Opening + Title + Concat(ItemLines(dates, formatDate)) + Closing
  }

  /** The line at `i` is the one for the `i`-th smallest level. */
  lemma ItemLineAt(dates: map<int, string>, formatDate: string -> string, i: nat)
    requires i < |dates|
    ensures var keys := KeyOrder.Ascending(dates.Keys);
            i < |keys| && keys[i] in dates && ItemLines(dates, formatDate)[i] == DateItem(keys[i], formatDate(dates[keys[i]]))
  {
  }

  lemma ConcatStep(lines: seq<string>, i: nat, prefix: string, text: string)
    requires i < |lines| && text == prefix + Concat(lines[..i])
    ensures text + lines[i] == prefix + Concat(lines[..i + 1])
  {
    assert lines[..i + 1][..i] == lines[..i];
  }

  /** `DateHistoryView.html(ac)`. */
  method Html(ac: Ledger.AC, formatDate: string -> string) returns (htmlString: string)
    ensures htmlString == DateHistoryHtml(ac.dates, formatDate)
  {
    if |ac.dates| == 0 {
      return "";
    }
    ghost var lines := ItemLines(ac.dates, formatDate);
    var prefix := Opening + Title;
    htmlString := prefix;
    var keys := KeyOrder.Ascending(ac.dates.Keys);
    for i := 0 to |keys|
      invariant htmlString == prefix + Concat(lines[..i])
    {
      var level := keys[i];
      var formattedDate := formatDate(ac.dates[level]);
      ItemLineAt(ac.dates, formatDate, i);
      ConcatStep(lines, i, prefix, htmlString);
      htmlString := htmlString + DateItem(level, formattedDate);
    }
    assert lines[..|keys|] == lines;
    htmlString := htmlString + Closing;
  }

  /** The fragment `dom(ac)` returns: empty, or built from the HTML. */
  datatype Fragment = EmptyFragment | FromHtml(html: string)

  /** `DateHistoryView.dom(ac)`. */
  method Dom(ac: Ledger.AC, formatDate: string -> string) returns (fragment: Fragment)
    ensures fragment.EmptyFragment? <==> |ac.dates| == 0
    ensures fragment.FromHtml? ==> fragment.html == DateHistoryHtml(ac.dates, formatDate)
  {
    var htmlContent := Html(ac, formatDate);
    HtmlEmptyIff(ac.dates, formatDate);
    if htmlContent == "" {
      return EmptyFragment;
    }
    return FromHtml(htmlContent);
  }

  // ------------------------------------------------------------ properties

  /** The HTML is empty exactly when no date is recorded. */
  lemma HtmlEmptyIff(dates: map<int, string>, formatDate: string -> string)
    ensures DateHistoryHtml(dates, formatDate) == "" <==> |dates| == 0
  {
    if |dates| > 0 {
      assert |DateHistoryHtml(dates, formatDate)| >= |Closing| > 0;
    }
  }

  /** A non-empty history opens with the wrapper and its title and closes the wrapper. */
  lemma HtmlShape(dates: map<int, string>, formatDate: string -> string)
    requires |dates| > 0
    ensures var h := DateHistoryHtml(dates, formatDate);
            && Text.StartsWith(h, Opening + Title)
            && |h| >= |Closing| && h[|h| - |Closing|..] == Closing
            && h == Opening + Title + Concat(ItemLines(dates, formatDate)) + Closing
  {
    var h := DateHistoryHtml(dates, formatDate);
    var body := Concat(ItemLines(dates, formatDate));
    assert h == (Opening + Title) + (body + Closing);
    assert h[..|Opening + Title|] == Opening + Title;
    assert h == (Opening + Title + body) + Closing;
  }

  /** Every recorded level has its line. */
  lemma ItemLinesCover(dates: map<int, string>, formatDate: string -> string, level: int)
    requires level in dates
    ensures DateItem(level, formatDate(dates[level])) in ItemLines(dates, formatDate)
  {
    var keys := KeyOrder.Ascending(dates.Keys);
    var i :| 0 <= i < |keys| && keys[i] == level;
    ItemLineAt(dates, formatDate, i);
  }

  /** Every line is the line of a recorded level, with the date recorded for it. */
  lemma ItemLinesSound(dates: map<int, string>, formatDate: string -> string, i: nat)
    requires i < |ItemLines(dates, formatDate)|
    ensures exists level :: level in dates && ItemLines(dates, formatDate)[i] == DateItem(level, formatDate(dates[level]))
  {
    ItemLineAt(dates, formatDate, i);
  }

  /** No line is repeated: each recorded level is listed once, in ascending order of levels. */
  lemma ItemLinesDistinct(dates: map<int, string>, formatDate: string -> string, i: nat, j: nat)
    requires i < j < |ItemLines(dates, formatDate)|
    ensures ItemLines(dates, formatDate)[i] != ItemLines(dates, formatDate)[j]
  {
    var keys := KeyOrder.Ascending(dates.Keys);
    ItemLineAt(dates, formatDate, i);
    ItemLineAt(dates, formatDate, j);
    DateItemsDistinct(keys[i], keys[j], formatDate(dates[keys[i]]), formatDate(dates[keys[j]]));
  }

  /** Two words without spaces, each followed by text starting with a space, are told apart. */
  lemma WordBeforeSpace(w1: string, w2: string, x1: string, x2: string)
    requires ' ' !in w1 && ' ' !in w2
    requires |x1| > 0 && x1[0] == ' ' && |x2| > 0 && x2[0] == ' '
    ensures w1 + x1 == w2 + x2 ==> w1 == w2
  {
    if |w1| < |w2| {
      assert (w1 + x1)[|w1|] == ' ' && (w2 + x2)[|w1|] == w2[|w1|];
    } else if |w2| < |w1| {
      assert (w2 + x2)[|w2|] == ' ' && (w1 + x1)[|w2|] == w1[|w2|];
    } else {
      assert (w1 + x1)[..|w1|] == w1 && (w2 + x2)[..|w2|] == w2;
    }
  }

  /** Distinct levels give distinct lines, so no level is listed twice. */
  lemma DateItemsDistinct(l1: int, l2: int, f1: string, f2: string)
    requires l1 != l2
    ensures DateItem(l1, f1) != DateItem(l2, f2)
  {
    Text.IntToStringInjective(l1, l2);
    Text.IntToStringChars(l1);
    Text.IntToStringChars(l2);
    var p := "<div class=\"date-item\">Niveau ";
    var s1, s2 := Text.IntToString(l1), Text.IntToString(l2);
    var x1, x2 := " atteint le " + f1 + "</div>", " atteint le " + f2 + "</div>";
    assert DateItem(l1, f1) == p + (s1 + x1);
    assert DateItem(l2, f2) == p + (s2 + x2);
    assert (p + (s1 + x1))[|p|..] == s1 + x1;
    assert (p + (s2 + x2))[|p|..] == s2 + x2;
    WordBeforeSpace(s1, s2, x1, x2);
  }
}
