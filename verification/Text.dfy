/** Small functions on text: splitting, numbers in base ten. */
module Text {

  function ToLower(c: char): char {
    if 'A' <= c <= 'Z' then (c as int + 32) as char else c
  }

  const CAPITALS := "ABCDEFGHIJKLMNOPQRSTUVWXYZ"
  const SMALLS := "abcdefghijklmnopqrstuvwxyz"

  /** A capital becomes the small letter at its place in the alphabet, all else stays. */
  lemma ToLowerMeans(c: char)
    ensures forall i :: 0 <= i < 26 && CAPITALS[i] == c ==> ToLower(c) == SMALLS[i]
    ensures c !in CAPITALS ==> ToLower(c) == c
  {
    Alphabet();
    assert 'A' <= c <= 'Z' ==> CAPITALS[c as int - 'A' as int] == c;
  }

  lemma Alphabet()
    ensures |CAPITALS| == 26 == |SMALLS|
    ensures forall i :: 0 <= i < 26 ==> CAPITALS[i] as int == 'A' as int + i && SMALLS[i] as int == 'a' as int + i
  {
  }

  /** `c` is the letter `small`, small or capital, or the same character. */
  ghost predicate Spells(c: char, small: char) {
    c == small || exists i :: 0 <= i < 26 && SMALLS[i] == small && CAPITALS[i] == c
  }

  /** `name` is a spelling of `word`, each letter small or capital. */
  ghost predicate IsSpelling(name: string, word: string) {
    && |name| == |word| && (forall i :: 0 <= i < |word| ==> Spells(name[i], word[i]))
    && forall i :: 0 <= i < |word| ==> word[i] !in CAPITALS
  }

  lemma SpellingLower(name: string, word: string)
    requires IsSpelling(name, word)
    ensures Lower(name) == word && forall c :: c !in word && c !in CAPITALS ==> c !in name
  {
    forall i | 0 <= i < |word| ensures ToLower(name[i]) == word[i] && (name[i] == word[i] || name[i] in CAPITALS) {
      assert Spells(name[i], word[i]);
      ToLowerMeans(name[i]);
    }
  }

  function Lower(s: string): string {
    seq(|s|, i requires 0 <= i < |s| => ToLower(s[i]))
  }

  /** The first position from `i` on where `c` is, or the length. */
  function IndexOf(s: string, c: char, i: int): (r: int)
    requires 0 <= i <= |s|
    ensures i <= r <= |s| && (r < |s| ==> s[r] == c) && forall k :: i <= k < r ==> s[k] != c
    decreases |s| - i
  {
    if i == |s| || s[i] == c then i else IndexOf(s, c, i + 1)
  }

  /** The first position from `i` on where `c` is not, or the length. */
  function SkipAll(s: string, c: char, i: int): (r: int)
    requires 0 <= i <= |s|
    ensures i <= r <= |s|
    decreases |s| - i
  {
    if i < |s| && s[i] == c then SkipAll(s, c, i + 1) else i
  }

  /** `read_until`: the text up to the delimiter, and the position after all delimiters that follow. */
  function ReadUntil(s: string, c: char, i: int): (r: (string, int))
    requires 0 <= i <= |s|
    ensures i <= r.1 <= |s|
  {
    var end := IndexOf(s, c, i);
    (s[i..end], SkipAll(s, c, end))
  }

  predicate IsSpace(c: char) {
    c == ' ' || '\t' <= c <= '\r'
  }

  predicate IsDigit(c: char) {
    '0' <= c <= '9'
  }

  function SkipSpace(s: string, i: int): (r: int)
    requires 0 <= i <= |s|
    ensures i <= r <= |s|
    decreases |s| - i
  {
    if i < |s| && IsSpace(s[i]) then SkipSpace(s, i + 1) else i
  }

  /** The number the digits from `i` on stand for, and where they end. */
  function Digits(s: string, i: int, value: int): (r: (int, int))
    requires 0 <= i <= |s|
    ensures i <= r.1 <= |s|
    decreases |s| - i
  {
    if i < |s| && IsDigit(s[i]) then Digits(s, i + 1, value * 10 + (s[i] as int - '0' as int)) else (value, i)
  }

  const MAX64 := 0x7fff_ffff_ffff_ffff

  function Saturate(v: int): int {
    if v > MAX64 then MAX64 else if v < -MAX64 - 1 then -MAX64 - 1 else v
  }

  /** `strtoll` in base ten: the number and where it ends, which is `i` when there is none. */
  function Strtoll(s: string, i: int): (r: (int, int))
    requires 0 <= i <= |s|
    ensures i <= r.1 <= |s|
  {
    var a := SkipSpace(s, i);
    var b := if a < |s| && (s[a] == '-' || s[a] == '+') then a + 1 else a;
    var d := Digits(s, b, 0);
    if d.1 == b then (0, i) else (Saturate(if a < b && s[a] == '-' then -d.0 else d.0), d.1)
  }

  predicate BeginsNoCase(prefix: string, s: string) {
    |prefix| <= |s| && forall i :: 0 <= i < |prefix| ==> ToLower(prefix[i]) == ToLower(s[i])
  }

  /** The prefix is found in any spelling. */
  lemma BeginsInAnyCase(prefix: string, name: string, rest: string)
    requires IsSpelling(name, prefix)
    ensures BeginsNoCase(prefix, name + rest)
  {
    SpellingLower(name, prefix);
    forall i | 0 <= i < |prefix| ensures ToLower(prefix[i]) == ToLower((name + rest)[i]) {
      ToLowerMeans(prefix[i]);
      assert Lower(name)[i] == ToLower(name[i]);
    }
  }

  function Decimal(n: nat): (s: string)
    ensures |s| > 0 && forall k :: 0 <= k < |s| ==> IsDigit(s[k])
  {
    if n < 10 then [('0' as int + n) as char] else Decimal(n / 10) + [('0' as int + n % 10) as char]
  }

  ghost predicate EndsNumber(rest: string) {
    rest == [] || !IsDigit(rest[0])
  }

  /** Reading one more digit at the end. */
  lemma {:induction false} DigitsAppend(head: string, s: string, tail: string, value: int)
    requires forall k :: 0 <= k < |s| ==> IsDigit(s[k])
    ensures Digits(head + s + tail, |head|, value) == Digits(head + s + tail, |head| + |s|, Value(s, value))
    decreases |s|
  {
    var all := head + s + tail;
    if |s| > 0 {
      assert all[|head|] == s[0];
      assert all == (head + [s[0]]) + s[1..] + tail;
      DigitsAppend(head + [s[0]], s[1..], tail, value * 10 + (s[0] as int - '0' as int));
    }
  }

  /** What digits add up to, starting from `value`. */
  function Value(s: string, value: int): int {
    if |s| == 0 then value else Value(s[1..], value * 10 + (s[0] as int - '0' as int))
  }

  lemma {:induction false} ValueAppend(s: string, c: char, value: int)
    ensures Value(s + [c], value) == Value(s, value) * 10 + (c as int - '0' as int)
    decreases |s|
  {
    if |s| > 0 {
      assert (s + [c])[1..] == s[1..] + [c];
      ValueAppend(s[1..], c, value * 10 + (s[0] as int - '0' as int));
    } else {
      assert s + [c] == [c] && [c][1..] == [];
    }
  }

  lemma {:induction false} ValueDecimal(n: nat)
    ensures Value(Decimal(n), 0) == n
  {
    if n >= 10 {
      ValueDecimal(n / 10);
      ValueAppend(Decimal(n / 10), ('0' as int + n % 10) as char, 0);
    } else {
      assert Decimal(n)[1..] == [];
    }
  }

  /** White space, as C has it: tab, line feed, vertical tab, form feed, carriage return, blank. */
  ghost predicate Spaces(s: string) {
    forall k :: 0 <= k < |s| ==> s[k] as int in {9, 10, 11, 12, 13, 32}
  }

  lemma {:induction false} SkipsSpace(head: string, spaces: string, rest: string)
    requires Spaces(spaces) && rest != [] && !(rest[0] as int in {9, 10, 11, 12, 13, 32})
    ensures SkipSpace(head + spaces + rest, |head|) == |head| + |spaces|
    decreases |spaces|
  {
    var s := head + spaces + rest;
    if spaces == "" {
      assert s[|head|] == rest[0];
    } else {
      SkipsSpace(head + spaces[..1], spaces[1..], rest);
      assert s == head + spaces[..1] + spaces[1..] + rest && s[|head|] == spaces[0];
    }
  }

  function Signed(sign: string, n: int): int {
    if sign == "-" then -n else n
  }

  /** The number nearest to `v` that a signed 64-bit integer can hold. */
  ghost predicate Nearest64(v: int, r: int) {
    && -9223372036854775808 <= r <= 9223372036854775807
    && (-9223372036854775808 <= v <= 9223372036854775807 ==> r == v)
    && (v > 9223372036854775807 ==> r == 9223372036854775807) && (v < -9223372036854775808 ==> r == -9223372036854775808)
  }

  lemma DigitsRead(head: string, n: nat, tail: string)
    requires EndsNumber(tail)
    ensures var s := head + Decimal(n) + tail;
            Digits(s, |head|, 0) == (n, |head| + |Decimal(n)|) && s[|head|] == Decimal(n)[0] && IsDigit(Decimal(n)[0])
  {
    var d := Decimal(n);
    var s := head + d + tail;
    assert s[|head|] == d[0];
    DigitsAppend(head, d, tail, 0);
    ValueDecimal(n);
    assert |head| + |d| < |s| ==> s[|head| + |d|] == tail[0];
    assert Digits(s, |head| + |d|, n) == (n, |head| + |d|);
  }

  /** `strtoll` reads a number in the middle of a text back: white space before it is
      passed over, a sign counts, and what does not fit is cut to what does. */
  lemma ReadsNumber(head: string, spaces: string, sign: string, n: nat, tail: string)
    requires Spaces(spaces) && (sign == "" || sign == "+" || sign == "-") && EndsNumber(tail)
    ensures var r := Strtoll(head + spaces + sign + Decimal(n) + tail, |head|);
            Nearest64(Signed(sign, n), r.0) && r.1 == |head| + |spaces| + |sign| + |Decimal(n)|
  {
    hide Digits, Decimal, SkipSpace;
    var d := Decimal(n);
    var s, a := head + spaces + sign + d + tail, |head| + |spaces|;
    SignedText(spaces, sign, d, tail);
    assert s == head + spaces + (sign + d + tail);
    SkipsSpace(head, spaces, sign + d + tail);
    DigitsRead(head + spaces + sign, n, tail);
    assert s[a] == (sign + d + tail)[0];
  }

  lemma SignedText(spaces: string, sign: string, d: string, tail: string)
    requires (sign == "" || sign == "+" || sign == "-") && d != [] && IsDigit(d[0])
    ensures var rest := sign + d + tail;
            && rest != [] && rest[0] == (if sign == "" then d[0] else sign[0]) && !(rest[0] as int in {9, 10, 11, 12, 13, 32})
            && (sign == "" ==> rest[0] != '-' && rest[0] != '+')
  {
  }

  lemma NumberAtEnd()
    ensures EndsNumber("")
  {
  }

  /** A number that fits, with nothing before it. */
  lemma ReadsBack(head: string, n: nat, tail: string)
    requires EndsNumber(tail) && n <= MAX64
    ensures Strtoll(head + Decimal(n) + tail, |head|) == (n, |head| + |Decimal(n)|)
  {
    hide Strtoll, Decimal;
    ReadsNumber(head, "", "", n, tail);
    assert head + "" + "" + Decimal(n) + tail == head + Decimal(n) + tail;
  }

  ghost predicate Free(s: string, c: char) {
    forall k :: 0 <= k < |s| ==> s[k] != c
  }

  lemma IndexIs(s: string, c: char, i: int, r: int)
    requires 0 <= i <= r <= |s| && (forall k :: i <= k < r ==> s[k] != c) && (r < |s| ==> s[r] == c)
    ensures IndexOf(s, c, i) == r
  {
  }

  /** Reading a word that is followed by one delimiter. */
  lemma WordThen(head: string, word: string, c: char, rest: string)
    requires Free(word, c) && (rest == [] || rest[0] != c)
    ensures ReadUntil(head + word + [c] + rest, c, |head|) == (word, |head| + |word| + 1)
  {
    var s, r := head + word + [c] + rest, |head| + |word|;
    forall k | |head| <= k < r ensures s[k] != c { assert s[k] == word[k - |head|]; }
    assert s[r] == c && s[|head|..r] == word;
    IndexIs(s, c, |head|, r);
    assert r + 1 < |s| ==> s[r + 1] == rest[0];
    assert SkipAll(s, c, r + 1) == r + 1 && SkipAll(s, c, r) == r + 1;
  }

  /** Reading the last word. */
  lemma WordLast(head: string, word: string, c: char)
    requires Free(word, c)
    ensures ReadUntil(head + word, c, |head|) == (word, |head| + |word|)
  {
    var s := head + word;
    forall k | |head| <= k < |s| ensures s[k] != c { assert s[k] == word[k - |head|]; }
    assert s[|head|..|s|] == word;
    IndexIs(s, c, |head|, |s|);
    assert SkipAll(s, c, |s|) == |s|;
  }
}
