/** The text rules of the wiki scraper that decide what the analyzer later
    reads: the quantity written in an item's `<code>` tag, whether an input is
    used up, and how links are written. */
module RecipeText {
  import opened Recipes
  import opened Numerals

  const WikiHost := "https://escapefromtarkov.fandom.com"

  /** The quantity text: the tag's stripped text with every `x` removed,
      stripped again. */
  function QuantityText(code: string): string {
    Strip(RemoveChar(Strip(code), 'x'))
  }

  /** Text that reads as the number 0: blank, or digits that are all zeros. */
  predicate ReadsZero(t: string) {
    t == [] || (IsDigits(t) && forall i | 0 <= i < |t| :: t[i] == '0')
  }

  /** An input's quantity: 0 for a blank tag (a tool), the number when the
      text is all digits, and 1 for anything else. */
  function InputQuantity(code: string): (q: nat)
    ensures q == 0 <==> ReadsZero(QuantityText(code))
    ensures IsDigits(QuantityText(code)) ==> q == DecimalValue(QuantityText(code))
    ensures QuantityText(code) != [] && !IsDigits(QuantityText(code)) ==> q == 1
  {
    var t := QuantityText(code);
    if t == [] then 0
    else if IsDigits(t) then DecimalZero(t); DecimalValue(t)
    else 1
  }

  /** An output's quantity: the number when the text is all digits, and 1
      otherwise, a blank tag included. */
  function OutputQuantity(code: string): (q: nat)
    ensures q == 0 <==> QuantityText(code) != [] && ReadsZero(QuantityText(code))
    ensures IsDigits(QuantityText(code)) ==> q == DecimalValue(QuantityText(code))
    ensures !IsDigits(QuantityText(code)) ==> q == 1
  {
    var t := QuantityText(code);
    if IsDigits(t) then DecimalZero(t); DecimalValue(t) else 1
  }

  /** An input entry read from the wiki: its consumable flag is always
      written, and it is true exactly when the quantity is not 0. The input
      is therefore a tool exactly when its tag is blank or holds only zeros. */
  function ScrapedInput(name: string, code: string): (i: Input)
    ensures i.name == name && i.quantity == InputQuantity(code)
    ensures i.consumable.Some? && (IsConsumable(i) <==> i.quantity != 0)
    ensures !IsConsumable(i) <==> ReadsZero(QuantityText(code))
  {
    var q := InputQuantity(code);
    Input(name, q, Some(q != 0))
  }

  /** Input and output rules agree on every non-blank tag and differ on a
      blank one: 0 for an input, 1 for an output. */
  lemma QuantityRules(code: string)
    ensures QuantityText(code) == [] ==> InputQuantity(code) == 0 && OutputQuantity(code) == 1
    ensures QuantityText(code) != [] ==> InputQuantity(code) == OutputQuantity(code)
  {
  }

  lemma {:induction false} RemoveCharAppend(s: string, t: string, c: char)
    ensures RemoveChar(s + t, c) == RemoveChar(s, c) + RemoveChar(t, c)
  {
    if t == [] {
      assert s + t == s;
    } else {
      var u := t[..|t| - 1];
      RemoveCharAppend(s, u, c);
      assert (s + t)[..|s + t| - 1] == s + u;
    }
  }

  lemma {:induction false} RemoveCharAbsent(s: string, c: char)
    requires forall i | 0 <= i < |s| :: s[i] != c
    ensures RemoveChar(s, c) == s
  {
    if s != [] {
      RemoveCharAbsent(s[..|s| - 1], c);
    }
  }

  /** The text of a written number reads back as that number, with or
      without an `x` on either side. */
  lemma DigitsRead(s: string)
    requires IsDigits(s)
    ensures QuantityText(s) == s && QuantityText("x" + s) == s && QuantityText(s + "x") == s
  {
    RemoveCharAbsent(s, 'x');
    StripUnchanged(s);
    DigitsReadPrefixed(s);
    DigitsReadSuffixed(s);
  }

  lemma DigitsReadPrefixed(s: string)
    requires IsDigits(s)
    ensures QuantityText("x" + s) == s
  {
    StripUnchanged("x" + s);
    RemoveCharAppend("x", s, 'x');
    RemoveCharX();
    RemoveCharAbsent(s, 'x');
    StripUnchanged(s);
  }

  lemma DigitsReadSuffixed(s: string)
    requires IsDigits(s)
    ensures QuantityText(s + "x") == s
  {
    StripUnchanged(s + "x");
    RemoveCharAppend(s, "x", 'x');
    RemoveCharX();
    RemoveCharAbsent(s, 'x');
    assert s + [] == s;
    StripUnchanged(s);
  }

  lemma RemoveCharX()
    ensures RemoveChar("x", 'x') == []
  {
    assert "x"[..0] == [];
  }

  /** A quantity written as `n`, `xn` or `nx` is read back as `n`, for an
      input and for an output alike. */
  lemma QuantityRoundTrip(n: nat)
    ensures var s := DecimalString(n);
            InputQuantity(s) == n && OutputQuantity(s) == n
            && InputQuantity("x" + s) == n && OutputQuantity("x" + s) == n
            && InputQuantity(s + "x") == n && OutputQuantity(s + "x") == n
  {
    DecimalRoundTrip(n);
    DigitsRead(DecimalString(n));
  }

  lemma {:induction false} DecimalZero(s: string)
    requires forall i | 0 <= i < |s| :: IsDigit(s[i])
    ensures DecimalValue(s) == 0 <==> forall i | 0 <= i < |s| :: s[i] == '0'
  {
    if s != [] {
      var front := s[..|s| - 1];
      DecimalZero(front);
      if forall i | 0 <= i < |front| :: front[i] == '0' {
        if s[|s| - 1] == '0' {
          forall i | 0 <= i < |s| ensures s[i] == '0' {
            if i < |front| { assert s[i] == front[i]; }
          }
        }
      } else {
        var i :| 0 <= i < |front| && front[i] != '0';
        assert s[i] == front[i];
      }
    }
  }

  /** The link of an input or output: the host, then the href unchanged. */
  function WikiLink(href: string): (r: string)
    ensures |r| == |WikiHost| + |href|
    ensures r[..|WikiHost|] == WikiHost && r[|WikiHost|..] == href
  {
    WikiHost + href
  }

  /** The link of a requirement: a site path gets the host, a full URL is
      kept as it is. */
  function RequirementLink(href: string): (r: string)
    ensures |href| > 0 && href[0] == '/' ==> r == WikiLink(href)
    ensures !(|href| > 0 && href[0] == '/') ==> r == href
    ensures |r| >= |href| && r[|r| - |href|..] == href
  {
    if |href| > 0 && href[0] == '/' then WikiLink(href) else href
  }

  /** A requirement's link never changes again once written. */
  lemma RequirementLinkFacts(href: string)
    ensures RequirementLink(RequirementLink(href)) == RequirementLink(href)
  {
    if |href| > 0 && href[0] == '/' {
      assert RequirementLink(href)[0] == 'h';
    }
  }

  /** A requirement line: `[text](link)` when the `<a>` has a non-empty
      href, the bare text otherwise. */
  function Requirement(text: string, href: Option<string>): (r: string)
    ensures href.None? || href.value == [] ==> r == text
    ensures href.Some? && href.value != [] ==>
              |r| == |text| + |RequirementLink(href.value)| + 4 && r[0] == '[' && r[|r| - 1] == ')'
  {
    if href.Some? && href.value != [] then "[" + text + "](" + RequirementLink(href.value) + ")"
    else text
  }

  /** The text and the link can be read back out of a linked requirement. */
  lemma RequirementReadBack(text: string, href: string)
    requires href != []
    ensures var r := Requirement(text, Some(href));
            var link := RequirementLink(href);
            |r| == |text| + |link| + 4
            && r[0] == '[' && r[1..|text| + 1] == text && r[|text| + 1..|text| + 3] == "]("
            && r[|text| + 3..|r| - 1] == link && r[|r| - 1] == ')'
  {
    var link := RequirementLink(href);
    var r := Requirement(text, Some(href));
    assert r == (("[" + text) + "](") + link + ")";
    var u := ("[" + text) + "](";
    assert r[..|u|] == u && r[|u|..|r| - 1] == link;
    assert u[1..|text| + 1] == text;
  }
}
