/** String operations the app uses to display and export answers and labels. */
module Text {

  /** The separator placed between list items when a list is shown as one string. */
  const Separator: string := ", "

  /** The items with the separator between each two of them. The result starts with the
      first item, holds a separator for each pair of neighbours, and is empty for no items. */
  function Join(items: seq<string>): (r: string)
    ensures items == [] ==> r == ""
    ensures items != [] ==> items[0] <= r
    ensures forall k :: 0 <= k < |items| ==> |items[k]| <= |r|
    ensures |items| > 0 ==> |r| >= 2 * (|items| - 1)
  {
    if items == [] then ""
    else if |items| == 1 then items[0]
    else items[0] + Separator + Join(items[1..])
  }

  /** Index of the first comma in `s`, or |s| when there is none. */
  function FirstComma(s: string): (k: nat)
    ensures k <= |s|
    ensures forall j :: 0 <= j < k ==> s[j] != ','
    ensures k < |s| ==> s[k] == ','
  {
    if s == [] then 0
    else if s[0] == ',' then 0
    else 1 + FirstComma(s[1..])
  }

  /** Splits a joined string back at each ", ". The inverse of Join on comma-free items. */
  function Split(s: string): seq<string>
    decreases |s|
  {
    var k := FirstComma(s);
    if k == |s| then [s]
    else [s[..k]] + Split(s[if k + 2 <= |s| then k + 2 else |s|..])
  }

  lemma FirstCommaAfter(x: string, rest: string)
    requires ',' !in x
    ensures FirstComma(x + Separator + rest) == |x|
  {
    var s := x + Separator + rest;
    forall j | 0 <= j < |x|
      ensures s[j] != ','
    {
      assert s[j] == x[j];
    }
    assert s[|x|] == ',';
  }

  lemma NoCommaMeansWhole(x: string)
    requires ',' !in x
    ensures FirstComma(x) == |x|
  {
    forall j | 0 <= j < |x|
      ensures x[j] != ','
    {
      assert x[j] in x;
    }
  }

  /** Joining a non-empty list of comma-free items is undone by Split: the flattened
      answer keeps every selected option, in order. */
  lemma {:induction false} SplitJoin(items: seq<string>)
    requires items != []
    requires forall i :: 0 <= i < |items| ==> ',' !in items[i]
    ensures Split(Join(items)) == items
  {
    if |items| == 1 {
      NoCommaMeansWhole(items[0]);
    } else {
      var s := Join(items);
      var rest := Join(items[1..]);
      assert s == items[0] + Separator + rest;
      FirstCommaAfter(items[0], rest);
      var k := |items[0]|;
      assert s[..k] == items[0];
      assert s[k + 2..] == rest;
      SplitJoin(items[1..]);
      assert items == [items[0]] + items[1..];
    }
  }

  /** Appending one item adds it after a separator at the end: Join keeps the list's order. */
  lemma {:induction false} JoinSnoc(items: seq<string>, last: string)
    requires items != []
    ensures Join(items + [last]) == Join(items) + Separator + last
  {
    if |items| == 1 {
      assert items + [last] == [items[0], last];
    } else {
      assert (items + [last])[1..] == items[1..] + [last];
      JoinSnoc(items[1..], last);
    }
  }

  /** A label cut to `n` characters, with an ellipsis appended iff something was cut off.
      The result keeps the first `n` characters (all of them for a short text) and is at most
      three characters longer than `n`. */
  function Truncate(s: string, n: nat): (r: string)
    ensures |r| <= n + 3
    ensures |s| <= n ==> r == s
    ensures |s| > n ==> |r| == n + 3 && r[..n] == s[..n] && r[n..] == "..."
  {
    if |s| > n then s[..n] + "..." else s
  }

  /** The first `n` characters, always followed by an ellipsis: the result is exactly three
      characters longer than what was kept of `s`, starts with it and ends in "...". */
  function Abbreviate(s: string, n: nat): (r: string)
    ensures |r| == (if |s| > n then n else |s|) + 3
    ensures r[..|r| - 3] == s[..|r| - 3]
    ensures r[|r| - 3..] == "..."
  {
    (if |s| > n then s[..n] else s) + "..."
  }

  /** Truncating a truncated label changes nothing. */
  lemma TruncateIdempotent(s: string, n: nat)
    ensures Truncate(Truncate(s, n), n) == Truncate(s, n)
  {
    if |s| > n {
      var r := Truncate(s, n);
      assert r[..n] == s[..n];
    }
  }

  /** The always-ellipsis form agrees with the conditional one exactly on long titles. */
  lemma AbbreviateVersusTruncate(s: string, n: nat)
    ensures Abbreviate(s, n) == Truncate(s, n) <==> |s| > n
  {
    if |s| <= n {
      assert |Abbreviate(s, n)| == |s| + 3;
    }
  }

  /** The decimal digit for 0 .. 9. */
  function DigitChar(d: nat): char
    requires d < 10
  {
    "0123456789"[d]
  }

  function DigitValue(c: char): nat
  {
    if '0' <= c <= '9' then (c as int - '0' as int) as nat else 0
  }

  /** The decimal digits of a natural number, most significant first. */
  function NatToString(n: nat): (s: string)
    ensures s != []
    ensures forall i :: 0 <= i < |s| ==> '0' <= s[i] <= '9'
  {
    if n < 10 then [DigitChar(n)] else NatToString(n / 10) + [DigitChar(n % 10)]
  }

  /** Reads decimal digits back into a number. */
  function ParseNat(s: string): nat
  {
    if s == [] then 0 else 10 * ParseNat(s[..|s| - 1]) + DigitValue(s[|s| - 1])
  }

  lemma {:induction false} ParseNatToString(n: nat)
    ensures ParseNat(NatToString(n)) == n
  {
    if n >= 10 {
      var s := NatToString(n);
      assert s[..|s| - 1] == NatToString(n / 10);
      ParseNatToString(n / 10);
    }
  }

  /** Distinct numbers are written differently. */
  lemma NatToStringInjective(m: nat, n: nat)
    requires NatToString(m) == NatToString(n)
    ensures m == n
  {
    ParseNatToString(m);
    ParseNatToString(n);
  }

  /** Lower-casing of one character, for the ASCII letters. */
  function LowerChar(c: char): char
  {
    if 'A' <= c <= 'Z' then (c as int - 'A' as int + 'a' as int) as char else c
  }

  /** One character of a type slug: a space becomes a hyphen, a letter is lower-cased. */
  function SlugChar(c: char): char
  {
    if c == ' ' then '-' else LowerChar(c)
  }

  /** The type slug stored with a question: its label lower-cased, with hyphens for spaces. */
  function Slug(name: string): (slug: string)
    ensures |slug| == |name|
  {
    seq(|name|, i requires 0 <= i < |name| => SlugChar(name[i]))
  }

  /** A slug has no spaces and no capital letters, and is its own slug. */
  lemma SlugNormal(name: string)
    ensures forall i :: 0 <= i < |Slug(name)| ==> Slug(name)[i] != ' ' && !('A' <= Slug(name)[i] <= 'Z')
    ensures Slug(Slug(name)) == Slug(name)
  {
  }
}
