/** The few operations of Go's `strings` package the modelled code relies on.
    A string is the sequence of its runes. */
module GoStrings {

  /** The sets of runes that the modelled code trims or skips. */
  datatype Cutset = UnicodeSpace | AsciiBlank | DoubleQuote

  /** `unicode.IsSpace`, the set used by `strings.TrimSpace`. */
  predicate IsSpace(c: char) {
    || '\t' <= c <= '\r'
    || c == ' '
    || c == '\U{85}'
    || c == '\U{A0}'
    || c == '\U{1680}'
    || '\U{2000}' <= c <= '\U{200A}'
    || c == '\U{2028}'
    || c == '\U{2029}'
    || c == '\U{202F}'
    || c == '\U{205F}'
    || c == '\U{3000}'
  }

  predicate In(k: Cutset, c: char) {
    match k
    case UnicodeSpace => IsSpace(c)
    case AsciiBlank => c == ' ' || c == '\t' || c == '\n' || c == '\r'
    case DoubleQuote => c == '"'
  }

  /** How many runes remain once the trailing members of `k` are dropped. */
  function TrimmedLen(s: string, k: Cutset): (n: nat)
    ensures n <= |s|
  {
    if |s| == 0 || !In(k, s[|s| - 1]) then |s| else TrimmedLen(s[..|s| - 1], k)
  }

  /** How many leading members of `k` the string starts with. */
  function LeadingLen(s: string, k: Cutset): (n: nat)
    ensures n <= |s|
  {
    if |s| == 0 || !In(k, s[0]) then 0 else 1 + LeadingLen(s[1..], k)
  }

  lemma {:induction false} TrimmedLenFacts(s: string, k: Cutset)
    ensures var n := TrimmedLen(s, k);
            (n > 0 ==> !In(k, s[n - 1])) && forall i :: n <= i < |s| ==> In(k, s[i])
    decreases |s|
  {
    if |s| > 0 && In(k, s[|s| - 1]) {
      var t := s[..|s| - 1];
      TrimmedLenFacts(t, k);
      assert forall i :: 0 <= i < |t| ==> t[i] == s[i];
    }
  }

  lemma {:induction false} LeadingLenFacts(s: string, k: Cutset)
    ensures var n := LeadingLen(s, k);
            (n < |s| ==> !In(k, s[n])) && forall i :: 0 <= i < n ==> In(k, s[i])
    decreases |s|
  {
    if |s| > 0 && In(k, s[0]) {
      var t := s[1..];
      LeadingLenFacts(t, k);
      assert forall i :: 1 <= i < |s| ==> t[i - 1] == s[i];
    }
  }

  function TrimRight(s: string, k: Cutset): string {
    s[..TrimmedLen(s, k)]
  }

  function Trim(s: string, k: Cutset): string {
    var t := s[LeadingLen(s, k)..];
    t[..TrimmedLen(t, k)]
  }

  function TrimSpace(s: string): string {
    Trim(s, UnicodeSpace)
  }

  /** Trimming keeps exactly the stretch between the first and the last rune outside
      the cutset, so it is the identity when both ends are outside it. */
  lemma TrimKeeps(s: string, k: Cutset)
    ensures |s| > 0 && !In(k, s[0]) ==> Trim(s, k) == s[..TrimmedLen(s, k)]
    ensures |s| > 0 && !In(k, s[0]) && !In(k, s[|s| - 1]) ==> Trim(s, k) == s
  {
    if |s| > 0 && !In(k, s[0]) {
      assert s[0..] == s;
      TrimmedLenFacts(s, k);
    }
  }

  ghost predicate AllIn(k: Cutset, s: string) {
    forall c <- s :: In(k, c)
  }

  lemma {:induction false} LeadingOf(a: string, b: string, k: Cutset)
    requires AllIn(k, a) && (b == "" || !In(k, b[0]))
    ensures LeadingLen(a + b, k) == |a|
    decreases |a|
  {
    if a == "" {
      assert a + b == b;
    } else {
      assert (a + b)[1..] == a[1..] + b && a[0] in a && forall c <- a[1..] :: c in a;
      LeadingOf(a[1..], b, k);
    }
  }

  lemma {:induction false} TrailingOf(a: string, b: string, k: Cutset)
    requires AllIn(k, b) && (a == "" || !In(k, a[|a| - 1]))
    ensures TrimmedLen(a + b, k) == |a|
    decreases |b|
  {
    if b == "" {
      assert a + b == a;
    } else {
      var front := b[..|b| - 1];
      assert (a + b)[..|a + b| - 1] == a + front && b[|b| - 1] in b && forall c <- front :: c in b;
      TrailingOf(a, front, k);
    }
  }

  /** Trimming takes off what is around a string, and nothing of the string. */
  lemma TrimPadded(a: string, m: string, b: string, k: Cutset)
    requires AllIn(k, a) && AllIn(k, b) && (m == "" || (!In(k, m[0]) && !In(k, m[|m| - 1])))
    ensures Trim(a + m + b, k) == m
  {
    if m == "" {
      assert a + m + b == (a + b) + "";
      LeadingOf(a + b, "", k);
      assert (a + b)[|a + b|..] == "";
    } else {
      assert a + m + b == a + (m + b);
      LeadingOf(a, m + b, k);
      TrailingOf(m, b, k);
      assert (a + (m + b))[|a|..] == m + b && (m + b)[..|m|] == m;
    }
  }
}
