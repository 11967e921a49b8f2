/** `getDailyQuote(date)`: the quote at index (sum of the date's character codes) mod quote count. */
module DailyQuote {

  /**
   * `date.split("").reduce((acc, char) => acc + char.charCodeAt(0), 0)`, a
   * left fold: no smaller than any one code, no larger than the largest code
   * times the length.
   */
  function CharCodeSum(s: string): (r: nat)
    ensures forall i :: 0 <= i < |s| ==> s[i] as int <= r
    ensures r <= |s| * 0x10FFFF
  {
    if s == [] then 0
    else
      var init := s[..|s| - 1];
      assert forall i :: 0 <= i < |init| ==> s[i] == init[i];
      CharCodeSum(init) + s[|s| - 1] as int
  }

  /** The sum over a concatenation is the sum of the sums. */
  lemma {:induction false} CharCodeSumAppend(a: string, b: string)
    ensures CharCodeSum(a + b) == CharCodeSum(a) + CharCodeSum(b)
  {
    if b == [] {
      assert a + b == a;
    } else {
      assert (a + b)[..|a + b| - 1] == a + b[..|b| - 1];
      assert (a + b)[|a + b| - 1] == b[|b| - 1];
      CharCodeSumAppend(a, b[..|b| - 1]);
    }
  }

  /** The sum depends only on which characters occur how often, not on their order. */
  lemma {:induction false} CharCodeSumPermutation(a: string, b: string)
    requires multiset(a) == multiset(b)
    ensures CharCodeSum(a) == CharCodeSum(b)
  {
    if a != [] {
      var x := a[|a| - 1];
      var a' := a[..|a| - 1];
      assert a == a' + [x];
      assert x in multiset(b);
      var k :| 0 <= k < |b| && b[k] == x;
      var b' := b[..k] + b[k + 1..];
      assert b == b[..k] + [x] + b[k + 1..];
      assert multiset(a) == multiset(a') + multiset{x};
      assert multiset(b) == multiset(b[..k]) + multiset{x} + multiset(b[k + 1..]);
      assert multiset(b') == multiset(b[..k]) + multiset(b[k + 1..]);
      assert multiset(a') == multiset(a) - multiset{x};
      assert multiset(b') == multiset(b) - multiset{x};
      CharCodeSumPermutation(a', b');
      CharCodeSumAppend(b[..k] + [x], b[k + 1..]);
      CharCodeSumAppend(b[..k], [x]);
      CharCodeSumAppend(b[..k], b[k + 1..]);
      assert CharCodeSum([x]) == x as int by {
        assert [x][..0] == [];
      }
    }
  }

  /** The index into a non-empty list of `count` quotes. */
  function QuoteIndex(date: string, count: nat): (i: nat)
    requires count > 0
    ensures i < count
  {
    CharCodeSum(date) % count
  }

  function GetDailyQuote(date: string, quotes: seq<string>): (q: string)
    requires |quotes| > 0
    ensures q in quotes
    ensures q == quotes[QuoteIndex(date, |quotes|)]
  {
    quotes[QuoteIndex(date, |quotes|)]
  }

  /** Dates spelt with the same characters (such as "2026-01-10" and "2026-10-01") get the same quote. */
  lemma SameCharactersSameQuote(d1: string, d2: string, quotes: seq<string>)
    requires |quotes| > 0 && multiset(d1) == multiset(d2)
    ensures GetDailyQuote(d1, quotes) == GetDailyQuote(d2, quotes)
  {
    CharCodeSumPermutation(d1, d2);
  }
}
