/** What the two file-name regular expressions have in common: a whole-string
    match (`std::regex_match`, ECMAScript grammar) that ends in a run of
    digits `(\d+)` followed by `\.bin`, preceded by something `.*?` accepts. */
module NamePatterns {
  import opened Wrappers
  import opened Numerals

  /** With `std::regex` over the `char`s of a `std::string`, `.` matches
      every character but `\n` and `\r`; a name's characters stand for its
      bytes, so the multi-byte line separators of Unicode are not among
      them. */
  predicate NoLineTerminator(s: string) {
    forall i | 0 <= i < |s| :: s[i] != '\n' && s[i] != '\r'
  }

  predicate EndsWith(s: string, suffix: string) {
    |suffix| <= |s| && forall i | 0 <= i < |suffix| :: s[|s| - |suffix| + i] == suffix[i]
  }

  /** `name` split as `pre`, the longest run of digits `d` before a trailing
      `.bin`, and `.bin`; `None` when there is no such run. */
  function DigitsBeforeBin(name: string): (r: Option<(string, string)>)
    ensures r.Some? ==> name == r.value.0 + r.value.1 + ".bin"
    ensures r.Some? ==> r.value.1 != [] && AllDigits(r.value.1)
    ensures r.Some? ==> r.value.0 == [] || !IsDigit(r.value.0[|r.value.0| - 1])
  {
    if !EndsWith(name, ".bin") then None
    else
      var body := name[..|name| - 4];
      var d := TrailingDigits(body);
      var pre := body[..|body| - |d|];
      assert name == body + ".bin";
      if d == [] then None else Some((pre, d))
  }

  /** The split is the only one: `pre + d + ".bin"` with `d` a maximal run of
      digits splits back into `pre` and `d`. */
  lemma DigitsBeforeBinOf(pre: string, d: string)
    requires d != [] && AllDigits(d) && (pre == [] || !IsDigit(pre[|pre| - 1]))
    ensures DigitsBeforeBin(pre + d + ".bin") == Some((pre, d))
  {
    var body := pre + d;
    var name := body + ".bin";
    assert name == pre + d + ".bin";
    EndsWithAppend(body, ".bin");
    assert name[..|name| - 4] == body;
    TrailingDigitsOf(pre, d);
    assert body[..|body| - |d|] == pre;
    DigitsBeforeBinParts(name, body, pre, d);
  }

  lemma EndsWithAppend(x: string, suffix: string)
    ensures EndsWith(x + suffix, suffix)
  {
    forall i | 0 <= i < |suffix|
      ensures (x + suffix)[|x + suffix| - |suffix| + i] == suffix[i]
    {
      assert |x + suffix| - |suffix| + i == |x| + i;
    }
  }

  /** `DigitsBeforeBin` from the pieces its definition computes. */
  lemma DigitsBeforeBinParts(name: string, body: string, pre: string, d: string)
    requires EndsWith(name, ".bin") && body == name[..|name| - 4]
    requires TrailingDigits(body) == d && d != [] && pre == body[..|body| - |d|]
    ensures DigitsBeforeBin(name) == Some((pre, d))
  {
  }

  /** Without a digit right before the trailing `.bin`, there is no split. */
  lemma {:induction false} NoDigitBeforeBin(pre: string)
    requires pre == [] || !IsDigit(pre[|pre| - 1])
    ensures DigitsBeforeBin(pre + ".bin") == None
  {
    var name := pre + ".bin";
    EndsWithAppend(pre, ".bin");
    assert name[..|name| - 4] == pre;
    TrailingDigitsOf(pre, []);
    assert pre + [] == pre;
  }
}
