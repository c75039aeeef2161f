/**
 * String operations of the Java standard library (and of the repository's
 * StringUtils helper) that the core relies on: joining, substring search,
 * String.split, String.trim, ASCII lower-casing, decimal conversion as done
 * by Integer.toString / Integer.parseInt, and the quote escaping done with
 * String.replaceAll.
 */
module Text {
  import opened Results

  /** The items joined by `sep`: n items are separated by exactly n - 1 copies of `sep`. */
  function Join(items: seq<string>, sep: string): string
    decreases |items|
  {
    if |items| == 0 then ""
    else if |items| == 1 then items[0]
    else Join(items[..|items| - 1], sep) + sep + items[|items| - 1]
  }

  /** Sum of the lengths of the items. */
  function TotalLength(items: seq<string>): nat
    decreases |items|
  {
    if |items| == 0 then 0 else TotalLength(items[..|items| - 1]) + |items[|items| - 1]|
  }

  /** Joining n >= 1 items adds exactly n - 1 separators to the items themselves. */
  lemma {:induction false} JoinLength(items: seq<string>, sep: string)
    requires |items| > 0
    ensures |Join(items, sep)| == TotalLength(items) + (|items| - 1) * |sep|
    decreases |items|
  {
    if |items| > 1 {
      JoinLength(items[..|items| - 1], sep);
    }
  }

  /** Appending one item adds one separator and the item. */
  lemma JoinSnoc(items: seq<string>, x: string, sep: string)
    ensures Join(items + [x], sep) == if |items| == 0 then x else Join(items, sep) + sep + x
  {
    assert (items + [x])[..|items|] == items;
  }

  /** Joining one more item of a sequence's prefix. */
  lemma JoinPrefixStep(items: seq<string>, i: nat, sep: string)
    requires i < |items|
    ensures Join(items[..i + 1], sep) == if i == 0 then items[i] else Join(items[..i], sep) + sep + items[i]
  {
    assert items[..i + 1] == items[..i] + [items[i]];
    JoinSnoc(items[..i], items[i], sep);
  }

  /** Joining can also be read from the left: the first item, one separator, the rest joined. */
  lemma {:induction false} JoinCons(x: string, rest: seq<string>, sep: string)
    requires |rest| > 0
    ensures Join([x] + rest, sep) == x + sep + Join(rest, sep)
    decreases |rest|
  {
    var xs := [x] + rest;
    if |rest| == 1 {
      assert xs[..1] == [x];
    } else {
      assert xs[..|xs| - 1] == [x] + rest[..|rest| - 1];
      JoinCons(x, rest[..|rest| - 1], sep);
    }
  }

  predicate StartsWith(s: string, prefix: string) {
    |prefix| <= |s| && s[..|prefix|] == prefix
  }

  predicate EndsWith(s: string, suffix: string) {
    |suffix| <= |s| && s[|s| - |suffix|..] == suffix
  }

  /** String.indexOf: the first position at which `sub` occurs in `s` (IndexOfFirst states that it is the first). */
  function IndexOf(s: string, sub: string): (r: Option<nat>)
    ensures r.Some? ==> r.value + |sub| <= |s| && s[r.value..r.value + |sub|] == sub
    ensures r.Some? ==> StartsWith(s[r.value..], sub)
    decreases |s|
  {
    if StartsWith(s, sub) then Some(0)
    else if |s| == 0 then None
    else
      match IndexOf(s[1..], sub)
      case None => None
      case Some(k) =>
        assert s[k + 1..] == s[1..][k..];
        Some(k + 1)
  }

  /** No earlier position holds `sub`, and when nothing is found no position holds it. */
  lemma {:induction false} IndexOfFirst(s: string, sub: string)
    ensures IndexOf(s, sub).Some? ==> forall j :: 0 <= j < IndexOf(s, sub).value ==> !StartsWith(s[j..], sub)
    ensures IndexOf(s, sub).None? ==> forall j :: 0 <= j <= |s| ==> !StartsWith(s[j..], sub)
    decreases |s|
  {
    if !StartsWith(s, sub) && |s| > 0 {
      IndexOfFirst(s[1..], sub);
      assert forall j :: 1 <= j <= |s| ==> s[j..] == s[1..][j - 1..];
    }
  }

  /** A position holding `sub` with none before it is what indexOf finds. */
  lemma {:induction false} IndexOfAt(s: string, sub: string, k: nat)
    requires k <= |s| && StartsWith(s[k..], sub)
    requires forall j :: 0 <= j < k ==> !StartsWith(s[j..], sub)
    ensures IndexOf(s, sub) == Some(k)
    decreases k
  {
    if k > 0 {
      assert !StartsWith(s[0..], sub);
      assert s[0..] == s;
      assert forall j :: 0 <= j < k - 1 ==> s[1..][j..] == s[j + 1..];
      assert s[1..][k - 1..] == s[k..];
      IndexOfAt(s[1..], sub, k - 1);
    }
  }

  /** When no position holds `sub`, indexOf finds nothing. */
  lemma {:induction false} IndexOfAbsent(s: string, sub: string)
    requires forall j :: 0 <= j <= |s| ==> !StartsWith(s[j..], sub)
    ensures IndexOf(s, sub).None?
    decreases |s|
  {
    assert s[0..] == s;
    if |s| > 0 {
      assert forall j :: 0 <= j <= |s| - 1 ==> s[1..][j..] == s[j + 1..];
      IndexOfAbsent(s[1..], sub);
    }
  }

  /** String.contains. */
  predicate Contains(s: string, sub: string) {
    IndexOf(s, sub).Some?
  }

  /** No piece contains the separator. */
  predicate NoneContain(pieces: seq<string>, sep: string) {
    forall i :: 0 <= i < |pieces| ==> !Contains(pieces[i], sep)
  }

  /**
   * String.split with a literal, non-empty separator, before Java drops the
   * trailing empty strings: the pieces between the leftmost non-overlapping
   * occurrences of `sep`. Nothing is lost (joining the pieces with `sep`
   * gives the input back) and no piece still contains `sep`.
   */
  function Split(s: string, sep: string): (pieces: seq<string>)
    requires |sep| > 0
    ensures |pieces| > 0
    ensures Join(pieces, sep) == s
    ensures NoneContain(pieces, sep)
    decreases |s|
  {
    match IndexOf(s, sep)
    case None =>
      NoneContainOne(s, sep);
      [s]
    case Some(k) =>
      PrefixBeforeFirstFree(s, sep, k);
      JoinCons(s[..k], Split(s[k + |sep|..], sep), sep);
      Decompose(s, k, sep);
      NoneContainCons(s[..k], Split(s[k + |sep|..], sep), sep);
      [s[..k]] + Split(s[k + |sep|..], sep)
  }

  /**
   * Split reads occurrences from the left: when the first occurrence of
   * `sep` is at k, the first piece is everything before k and the rest of
   * the pieces are the split of what follows that occurrence.
   */
  lemma SplitLeftmost(s: string, sep: string, k: nat)
    requires |sep| > 0 && k <= |s| && StartsWith(s[k..], sep)
    requires forall j :: 0 <= j < k ==> !StartsWith(s[j..], sep)
    ensures Split(s, sep) == [s[..k]] + Split(s[k + |sep|..], sep)
  {
    IndexOfAt(s, sep, k);
    Decompose(s, k, sep);
    SplitAtFirst(s[..k], sep, s[k + |sep|..]);
  }

  /** With no occurrence of `sep` at any position, the whole string is the only piece. */
  lemma SplitWhole(s: string, sep: string)
    requires |sep| > 0
    requires forall j :: 0 <= j <= |s| ==> !StartsWith(s[j..], sep)
    ensures Split(s, sep) == [s]
  {
    IndexOfAbsent(s, sep);
  }

  /** A string with `sep` at position k is the part before, `sep`, and the part after. */
  lemma Decompose(s: string, k: nat, sep: string)
    requires k + |sep| <= |s| && s[k..k + |sep|] == sep
    ensures s == s[..k] + sep + s[k + |sep|..]
  {
    assert s == s[..k] + s[k..k + |sep|] + s[k + |sep|..];
  }

  lemma NoneContainOne(x: string, sep: string)
    requires !Contains(x, sep)
    ensures NoneContain([x], sep)
  {
  }

  lemma NoneContainCons(x: string, rest: seq<string>, sep: string)
    requires !Contains(x, sep) && NoneContain(rest, sep)
    ensures NoneContain([x] + rest, sep)
  {
    forall i | 0 <= i < |[x] + rest|
      ensures !Contains(([x] + rest)[i], sep)
    {
      if i > 0 {
        assert ([x] + rest)[i] == rest[i - 1];
      }
    }
  }

  lemma PrefixBeforeFirstFree(s: string, sep: string, k: nat)
    requires |sep| > 0 && IndexOf(s, sep) == Some(k)
    ensures !Contains(s[..k], sep)
  {
    IndexOfFirst(s, sep);
    forall j | 0 <= j <= k
      ensures !StartsWith(s[..k][j..], sep)
    {
      if j + |sep| <= k {
        assert !StartsWith(s[j..], sep);
        PrefixWindow(s, k, j, |sep|);
      }
    }
    IndexOfAbsent(s[..k], sep);
  }

  /** A window that ends inside the first k characters reads the same in the prefix. */
  lemma PrefixWindow(s: string, k: nat, j: nat, n: nat)
    requires j + n <= k <= |s|
    ensures s[..k][j..][..n] == s[j..][..n]
  {
  }

  /**
   * With a one-character separator that no item contains, splitting the
   * joined string gives back exactly the items: the n items were separated by
   * exactly n - 1 separators and kept their order.
   */
  lemma {:induction false} JoinSplit(items: seq<string>, sep: string)
    requires |sep| == 1 && |items| > 0
    requires forall i :: 0 <= i < |items| ==> !Contains(items[i], sep)
    ensures Split(Join(items, sep), sep) == items
    decreases |items|
  {
    if |items| == 1 {
    } else {
      assert items == [items[0]] + items[1..];
      JoinCons(items[0], items[1..], sep);
      JoinSplit(items[1..], sep);
      FirstSeparator(items[0], sep, Join(items[1..], sep));
      SplitAtFirst(items[0], sep, Join(items[1..], sep));
    }
  }

  /** Splitting x + sep + t at its first separator, found right after x. */
  lemma SplitAtFirst(x: string, sep: string, t: string)
    requires |sep| > 0 && IndexOf(x + sep + t, sep) == Some(|x|)
    ensures Split(x + sep + t, sep) == [x] + Split(t, sep)
  {
    assert (x + sep + t)[..|x|] == x;
    assert (x + sep + t)[|x| + |sep|..] == t;
  }

  lemma FirstSeparator(x: string, sep: string, t: string)
    requires |sep| == 1 && !Contains(x, sep)
    ensures IndexOf(x + sep + t, sep) == Some(|x|)
  {
    IndexOfFirst(x, sep);
    assert (x + sep + t)[|x|..][..1] == sep;
    forall j | 0 <= j < |x|
      ensures !StartsWith((x + sep + t)[j..], sep)
    {
      assert (x + sep + t)[j..][..1] == [x[j]] == x[j..][..1];
    }
    IndexOfAt(x + sep + t, sep, |x|);
  }

  /** The characters String.trim removes: everything up to and including the space. */
  predicate IsTrimmable(c: char) {
    c <= ' '
  }

  function TrimStart(s: string): (r: string)
    ensures |r| <= |s| && r == s[|s| - |r|..]
    ensures forall i :: 0 <= i < |s| - |r| ==> IsTrimmable(s[i])
    ensures r == "" || !IsTrimmable(r[0])
    decreases |s|
  {
    if |s| > 0 && IsTrimmable(s[0]) then TrimStart(s[1..]) else s
  }

  function TrimEnd(s: string): (r: string)
    ensures |r| <= |s| && r == s[..|r|]
    ensures forall i :: |r| <= i < |s| ==> IsTrimmable(s[i])
    ensures r == "" || !IsTrimmable(r[|r| - 1])
    decreases |s|
  {
    if |s| > 0 && IsTrimmable(s[|s| - 1]) then TrimEnd(s[..|s| - 1]) else s
  }

  /** String.trim: the input without its leading and trailing characters up to ' '. */
  function Trim(s: string): string {
    TrimEnd(TrimStart(s))
  }

  /** What trim keeps begins and ends with a character it does not remove. */
  lemma TrimEnds(s: string)
    ensures Trim(s) == "" || (!IsTrimmable(Trim(s)[0]) && !IsTrimmable(Trim(s)[|Trim(s)| - 1]))
  {
    if Trim(s) != "" {
      assert Trim(s)[0] == TrimStart(s)[0];
    }
  }

  /** Trimming twice changes nothing. */
  lemma TrimIdempotent(s: string)
    ensures Trim(Trim(s)) == Trim(s)
  {
    TrimEnds(s);
    TrimStartKeeps(Trim(s));
    TrimEndKeeps(Trim(s));
  }

  lemma TrimStartKeeps(t: string)
    requires t == "" || !IsTrimmable(t[0])
    ensures TrimStart(t) == t
  {
  }

  lemma TrimEndKeeps(t: string)
    requires t == "" || !IsTrimmable(t[|t| - 1])
    ensures TrimEnd(t) == t
  {
  }

  /** Lower-casing of the ASCII letters; every other character is kept. */
  function ToLowerAscii(s: string): (r: string)
    ensures |r| == |s|
    ensures forall i :: 0 <= i < |s| ==>
      r[i] == (if 'A' <= s[i] <= 'Z' then (s[i] as int + 32) as char else s[i])
  {
    seq(|s|, i requires 0 <= i < |s| => if 'A' <= s[i] <= 'Z' then (s[i] as int + 32) as char else s[i])
  }

  predicate IsDigit(c: char) {
    '0' <= c <= '9'
  }

  predicate AllDigits(s: string) {
    forall i :: 0 <= i < |s| ==> IsDigit(s[i])
  }

  function DigitChar(d: nat): (c: char)
    requires d < 10
    ensures IsDigit(c) && c as int - '0' as int == d
  {
    ('0' as int + d) as char
  }

  /** The decimal digits of n, most significant first, without leading zeros. */
  function Digits(n: nat): (s: string)
    ensures |s| > 0 && AllDigits(s)
    ensures |s| > 1 ==> s[0] != '0'
    decreases n
  {
    if n < 10 then [DigitChar(n)] else Digits(n / 10) + [DigitChar(n % 10)]
  }

  /** Integer.toString / StringBuilder.append(int): an optional minus sign and the digits. */
  function DecimalString(n: int): string {
    if n < 0 then "-" + Digits(-n) else Digits(n)
  }

  /** The number a string of decimal digits denotes. */
  function DigitsValue(s: string): nat
    requires AllDigits(s)
    decreases |s|
  {
    if |s| == 0 then 0 else DigitsValue(s[..|s| - 1]) * 10 + (s[|s| - 1] as int - '0' as int)
  }

  lemma {:induction false} DigitsValueOfDigits(n: nat)
    ensures DigitsValue(Digits(n)) == n
    decreases n
  {
    if n >= 10 {
      DigitsValueOfDigits(n / 10);
      var s := Digits(n);
      assert s[..|s| - 1] == Digits(n / 10);
    }
  }

  /** The text Integer.parseInt accepts, over ASCII digits: an optional '+' or '-', then at least one digit. */
  predicate IsIntegerText(s: string) {
    || (|s| > 0 && AllDigits(s))
    || (|s| > 1 && (s[0] == '+' || s[0] == '-') && AllDigits(s[1..]))
  }

  /** The number such a text denotes: leading zeros do not count, and '-' negates. */
  function IntegerValue(s: string): int
    requires IsIntegerText(s)
  {
    if s[0] == '-' then -(DigitsValue(s[1..]) as int)
    else if s[0] == '+' then DigitsValue(s[1..])
    else DigitsValue(s)
  }

  /**
   * Integer.parseInt / Long.parseLong restricted to ASCII digits: an optional
   * sign, at least one digit, and a value in [lo, hi]; anything else raises
   * NumberFormatException naming the input.
   */
  function ParseInteger(s: string, lo: int, hi: int): (r: Result<int>)
    ensures r.Ok? <==> IsIntegerText(s) && lo <= IntegerValue(s) <= hi
    ensures r.Ok? ==> r.value == IntegerValue(s)
    ensures r.Err? ==> r.error == NumberFormatException(s)
  {
    if |s| == 0 then Err(NumberFormatException(s))
    else
      var body := if s[0] == '-' || s[0] == '+' then s[1..] else s;
      if |body| == 0 || !AllDigits(body) then Err(NumberFormatException(s))
      else
        var v: int := if s[0] == '-' then -(DigitsValue(body) as int) else DigitsValue(body);
        if lo <= v <= hi then Ok(v) else Err(NumberFormatException(s))
  }

  /** Parsing what Integer.toString printed gives the number back, for every number in range. */
  lemma ParseDecimalString(n: int, lo: int, hi: int)
    requires lo <= n <= hi
    ensures ParseInteger(DecimalString(n), lo, hi) == Ok(n)
  {
    if n < 0 {
      var d := Digits(-n);
      var s := "-" + d;
      assert DecimalString(n) == s;
      assert s[0] == '-' && s[1..] == d;
      DigitsValueOfDigits(-n);
    } else {
      var d := Digits(n);
      assert DecimalString(n) == d;
      assert IsDigit(d[0]);
      DigitsValueOfDigits(n);
    }
  }

  /** String.replaceAll("\"", "\\\\\""): every double quote is preceded by a backslash. */
  function EscapeQuotes(s: string): (r: string)
    ensures (forall i :: 0 <= i < |s| ==> s[i] != '"') ==> r == s
    ensures |r| >= |s|
    decreases |s|
  {
    if |s| == 0 then ""
    else (if s[0] == '"' then "\\\"" else [s[0]]) + EscapeQuotes(s[1..])
  }

  /** The inverse reading: a backslash followed by a quote stands for a quote. */
  function UnescapeQuotes(s: string): string
    decreases |s|
  {
    if |s| == 0 then ""
    else if |s| >= 2 && s[0] == '\\' && s[1] == '"' then "\"" + UnescapeQuotes(s[2..])
    else [s[0]] + UnescapeQuotes(s[1..])
  }

  lemma EscapeNeverStartsWithQuote(s: string)
    ensures EscapeQuotes(s) == "" || EscapeQuotes(s)[0] != '"'
  {
  }

  /** Escaping loses no information: only quotes were touched, and each can be read back. */
  lemma {:induction false} EscapeRoundTrip(s: string)
    ensures UnescapeQuotes(EscapeQuotes(s)) == s
    decreases |s|
  {
    if |s| > 0 {
      var rest := EscapeQuotes(s[1..]);
      EscapeRoundTrip(s[1..]);
      if s[0] == '"' {
        assert EscapeQuotes(s) == "\\\"" + rest;
        assert (EscapeQuotes(s))[2..] == rest;
      } else {
        EscapeNeverStartsWithQuote(s[1..]);
        assert EscapeQuotes(s) == [s[0]] + rest;
        assert (EscapeQuotes(s))[1..] == rest;
      }
    }
  }

  /** Escaping adds exactly one character per quote. */
  lemma {:induction false} EscapeLength(s: string)
    ensures |EscapeQuotes(s)| == |s| + multiset(s)['"']
    decreases |s|
  {
    if |s| > 0 {
      EscapeLength(s[1..]);
      assert s == [s[0]] + s[1..];
      assert multiset(s) == multiset([s[0]]) + multiset(s[1..]);
    }
  }

  /** StringBuilder.reverse. */
  function Reverse(s: string): (r: string)
    ensures |r| == |s| && forall i :: 0 <= i < |s| ==> r[i] == s[|s| - 1 - i]
  {
    seq(|s|, i requires 0 <= i < |s| => s[|s| - 1 - i])
  }

  /** The characters Character.isWhitespace accepts among the ASCII ones. */
  predicate IsWhitespace(c: char) {
    c == ' ' || c == '\t' || c == '\n' || c == '\r' || c == '\U{B}' || c == '\U{C}'
    || ('\U{1C}' <= c <= '\U{1F}')
  }

  /** StringUtils.isBlank: null, empty, or only whitespace. */
  predicate IsBlank(s: Option<string>) {
    s.None? || forall i :: 0 <= i < |s.value| ==> IsWhitespace(s.value[i])
  }
}
