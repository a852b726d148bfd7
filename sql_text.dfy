/**
 * The string operations the statement builders are made of: Python's
 * `sep.join(items)`, `[s] * n`, `str.upper()` and a count of the `?`
 * placeholders in a piece of SQL text.
 */
module SqlText {

  /** `sep.join(items)`: the items in order with `sep` between neighbours. */
  function Join(items: seq<string>, sep: string): string
  {
    if |items| == 0 then ""
    else if |items| == 1 then items[0]
    else items[0] + sep + Join(items[1..], sep)
  }

  /** The text `Join(items, sep)` holds before its `i`-th item. */
  function Before(items: seq<string>, sep: string, i: nat): string
    requires i <= |items|
  {
    if i == 0 then "" else Join(items[..i], sep) + sep
  }

  /** The text `Join(items, sep)` holds after its `i`-th item. */
  function After(items: seq<string>, sep: string, i: nat): string
    requires i < |items|
  {
    if i == |items| - 1 then "" else sep + Join(items[i + 1..], sep)
  }

  /** Splitting a join between two neighbouring items. */
  lemma {:induction false} JoinSplit(items: seq<string>, sep: string, i: nat)
    requires 0 < i < |items|
    ensures Join(items, sep) == Join(items[..i], sep) + sep + Join(items[i..], sep)
  {
    if i > 1 {
      JoinSplit(items[1..], sep, i - 1);
      assert items[1..][..i - 1] == items[..i][1..];
      assert items[1..][i - 1..] == items[i..];
    }
  }

  /** Every item of a join sits in its own slot, in list order. */
  lemma {:induction false} JoinEntry(items: seq<string>, sep: string, i: nat)
    requires i < |items|
    ensures Join(items, sep) == Before(items, sep, i) + items[i] + After(items, sep, i)
  {
    var rest := items[i..];
    assert rest[0] == items[i] && rest[1..] == items[i + 1..];
    assert Join(rest, sep) == items[i] + After(items, sep, i);
    if i > 0 {
      JoinSplit(items, sep, i);
    } else {
      assert rest == items;
    }
  }

  /** Moving a middle group of a five-part concatenation to its neighbours. */
  lemma Regroup(a: string, b: string, c: string, d: string, e: string)
    ensures a + (b + c + d) + e == (a + b) + c + (d + e)
  {
  }

  /** The number of occurrences of `c` in `s`. */
  function CountChar(s: string, c: char): nat
  {
    if s == [] then 0
    else CountChar(s[..|s| - 1], c) + (if s[|s| - 1] == c then 1 else 0)
  }

  /** The `?` placeholders in a piece of SQL text. */
  function Placeholders(s: string): nat
  {
    CountChar(s, '?')
  }

  lemma {:induction false} CountConcat(a: string, b: string, c: char)
    ensures CountChar(a + b, c) == CountChar(a, c) + CountChar(b, c)
  {
    if b == [] {
      assert a + b == a;
    } else {
      assert (a + b)[..|a + b| - 1] == a + b[..|b| - 1];
      CountConcat(a, b[..|b| - 1], c);
    }
  }

  lemma {:induction false} CountAbsent(s: string, c: char)
    requires c !in s
    ensures CountChar(s, c) == 0
  {
    if s != [] {
      CountAbsent(s[..|s| - 1], c);
    }
  }

  /**
   * When the separator holds no `c` and every item holds exactly `k` of them,
   * a join holds `k` of them per item.
   */
  lemma {:induction false} JoinCount(items: seq<string>, sep: string, c: char, k: nat)
    requires c !in sep
    requires forall i :: 0 <= i < |items| ==> CountChar(items[i], c) == k
    ensures CountChar(Join(items, sep), c) == k * |items|
  {
    if |items| > 1 {
      var tail := Join(items[1..], sep);
      CountAbsent(sep, c);
      JoinCount(items[1..], sep, c, k);
      assert CountChar(tail, c) == k * (|items| - 1);
      CountConcat(items[0], sep, c);
      CountConcat(items[0] + sep, tail, c);
      assert Join(items, sep) == items[0] + sep + tail;
      assert CountChar(Join(items, sep), c) == k + k * (|items| - 1);
      assert k + k * (|items| - 1) == k * |items|;
    } else if |items| == 1 {
      assert Join(items, sep) == items[0];
    }
  }

  /** The text before slot `i` of such a join holds `k` of them per earlier item. */
  lemma BeforeCount(items: seq<string>, sep: string, c: char, k: nat, i: nat)
    requires i <= |items|
    requires c !in sep
    requires forall j :: 0 <= j < |items| ==> CountChar(items[j], c) == k
    ensures CountChar(Before(items, sep, i), c) == k * i
  {
    if i > 0 {
      CountAbsent(sep, c);
      JoinCount(items[..i], sep, c, k);
      CountConcat(Join(items[..i], sep), sep, c);
    }
  }

  /** `[s] * n`. */
  function Repeat(s: string, n: nat): (r: seq<string>)
    ensures |r| == n
    ensures forall i :: 0 <= i < n ==> r[i] == s
  {
    if n == 0 then [] else [s] + Repeat(s, n - 1)
  }

  /** `str.upper()` on one character, for the ASCII letters. */
  function UpperChar(c: char): (u: char)
    ensures !('a' <= u <= 'z')
    ensures ('a' <= c <= 'z') ==> u as int == c as int - 32
    ensures !('a' <= c <= 'z') ==> u == c
  {
    if 'a' <= c <= 'z' then (c as int - 32) as char else c
  }

  /** `str.upper()`: every lower-case ASCII letter in upper case, every other character kept. */
  function Upper(s: string): (u: string)
    ensures |u| == |s|
    ensures forall i :: 0 <= i < |s| ==> u[i] == UpperChar(s[i])
  {
    if s == [] then [] else [UpperChar(s[0])] + Upper(s[1..])
  }

  /** Upper-casing is idempotent and leaves no lower-case ASCII letter. */
  lemma UpperIdempotent(s: string)
    ensures Upper(Upper(s)) == Upper(s)
    ensures forall i :: 0 <= i < |s| ==> !('a' <= Upper(s)[i] <= 'z')
  {
    var u := Upper(s);
    assert forall i :: 0 <= i < |u| ==> UpperChar(u[i]) == u[i];
  }
}
