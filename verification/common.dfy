/**
 Shared vocabulary for the whole model: optional values and results, the
 string helpers the JavaScript code relies on (`trim`, `split`, `includes`,
 `endsWith`, `toLowerCase`, string `<`), and order-preserving filtering and
 de-duplication of sequences.
 */
module Common {

  /** `undefined` / `null` versus a present value. */
  datatype Option<T> = None | Some(value: T) {
    function GetOr(default: T): T {
      match this
      case Some(v) => v
      case None => default
    }
  }

  /** An optional string that is present and non-empty, i.e. truthy. */
  predicate TruthyStr(s: Option<string>) {
    s.Some? && s.value != ""
  }

  /** A computation that either yields a value or fails with an error (a thrown `Error`). */
  datatype Result<T, E> = Ok(value: T) | Err(error: E)

  // ---------------------------------------------------------------------------
  // Whitespace and trimming
  // ---------------------------------------------------------------------------

  /** The characters JavaScript's `String.prototype.trim` and the regex class `\s` treat as white space. */
  predicate IsSpace(c: char) {
    || c == ' ' || c == '\t' || c == '\n' || c == '\r'
    || c == '\U{000B}' || c == '\U{000C}'
    || c == '\U{00A0}' || c == '\U{1680}'
    || ('\U{2000}' <= c <= '\U{200A}')
    || c == '\U{2028}' || c == '\U{2029}' || c == '\U{202F}' || c == '\U{205F}'
    || c == '\U{3000}' || c == '\U{FEFF}'
  }

  /** `s.trim() === ''`: the string is empty or all white space. */
  predicate IsBlank(s: string) {
    forall i :: 0 <= i < |s| ==> IsSpace(s[i])
  }

  function TrimStart(s: string): (r: string)
    ensures |r| <= |s| && r == s[|s| - |r|..]
    ensures IsBlank(s[..|s| - |r|])
    ensures r == [] || !IsSpace(r[0])
  {
    if |s| > 0 && IsSpace(s[0]) then
      var r := TrimStart(s[1..]);
      assert s[..|s| - |r|] == [s[0]] + s[1..][..|s[1..]| - |r|];
      r
    else s
  }

  /** How many white-space characters `s` starts with. */
  function TrimOffset(s: string): (a: nat)
    ensures a <= |s| && IsBlank(s[..a])
    ensures a == |s| || !IsSpace(s[a])
  {
    if |s| > 0 && IsSpace(s[0]) then
      var a := 1 + TrimOffset(s[1..]);
      assert s[..a] == [s[0]] + s[1..][..a - 1];
      a
    else 0
  }

  /** Where the white space that `s` ends with begins. */
  function TrimLimit(s: string): (b: nat)
    ensures b <= |s| && IsBlank(s[b..])
    ensures b == 0 || !IsSpace(s[b - 1])
  {
    if |s| > 0 && IsSpace(s[|s| - 1]) then
      var b := TrimLimit(s[..|s| - 1]);
      assert s[b..] == s[..|s| - 1][b..] + [s[|s| - 1]];
      b
    else |s|
  }

  /** `s.trim()`: the infix of `s` left after removing leading and trailing white space. */
  function Trim(s: string): (r: string)
    ensures TrimOffset(s) + |r| <= |s| && r == s[TrimOffset(s)..TrimOffset(s) + |r|]
    ensures IsBlank(s[..TrimOffset(s)]) && IsBlank(s[TrimOffset(s) + |r|..])
    ensures r == [] || (!IsSpace(r[0]) && !IsSpace(r[|r| - 1]))
  {
    var a, b := TrimOffset(s), TrimLimit(s);
    if a == |s| then []
    else
      s[a..b]
  }

  /** End of the run of white space starting at `i` (the greedy `\s+`). */
  function SpaceRunEnd(s: string, i: nat): (j: nat)
    requires i <= |s|
    ensures i <= j <= |s| && IsBlank(s[i..j])
    ensures j == |s| || !IsSpace(s[j])
    decreases |s| - i
  {
    if i < |s| && IsSpace(s[i]) then
      var j := SpaceRunEnd(s, i + 1);
      assert s[i..j] == [s[i]] + s[i + 1..j];
      j
    else i
  }
  /** Start of the run of white space that ends at `end`, not reaching back before `from` (a greedy `\s*` before `end`). */
  function SpaceRunStart(s: string, from: nat, end: nat): (b: nat)
    requires from <= end <= |s|
    ensures from <= b <= end && IsBlank(s[b..end])
    ensures b == from || !IsSpace(s[b - 1])
    decreases end - from
  {
    if from < end && IsSpace(s[end - 1]) then
      var b := SpaceRunStart(s, from, end - 1);
      assert s[b..end] == s[b..end - 1] + [s[end - 1]];
      b
    else end
  }

  /** Trimming yields the empty string exactly for blank input. */
  lemma TrimEmptyIffBlank(s: string)
    ensures Trim(s) == [] <==> IsBlank(s)
  {
    var r := Trim(s);
    var a := TrimOffset(s);
    if r == [] {
      forall i | 0 <= i < |s| ensures IsSpace(s[i]) {
        assert s[..a][i] == s[i];
      }
    } else {
      assert s[a] == r[0];
    }
  }

  /** A string that starts and ends with a non-space character is its own trim. */
  lemma TrimOfTrimmed(s: string)
    requires s == [] || (!IsSpace(s[0]) && !IsSpace(s[|s| - 1]))
    ensures Trim(s) == s
  {
  }

  /** Trimming is idempotent. */
  lemma TrimIdempotent(s: string)
    ensures Trim(Trim(s)) == Trim(s)
  {
    TrimOfTrimmed(Trim(s));
  }

  // ---------------------------------------------------------------------------
  // Splitting on a separator character and joining back
  // ---------------------------------------------------------------------------

  /** `parts.join(sep)` */
  function Join(parts: seq<string>, sep: char): string
    requires |parts| >= 1
  {
    if |parts| == 1 then parts[0] else parts[0] + [sep] + Join(parts[1..], sep)
  }

  /** Index of the first occurrence of `c` in `s`, if any. */
  function FindChar(s: string, c: char): (r: Option<nat>)
    ensures r.Some? ==> r.value < |s| && s[r.value] == c && c !in s[..r.value]
    ensures r.None? <==> c !in s
  {
    if |s| == 0 then None
    else if s[0] == c then Some(0)
    else
      match FindChar(s[1..], c)
      case None => None
      case Some(i) =>
        assert s[..i + 1] == [s[0]] + s[1..][..i];
        Some(i + 1)
  }

  /** `s.split(sep)` with a one-character separator: the maximal separator-free pieces, in order. */
  function Split(s: string, sep: char): (r: seq<string>)
    ensures |r| >= 1
    ensures forall i :: 0 <= i < |r| ==> sep !in r[i]
    ensures Join(r, sep) == s
    decreases |s|
  {
    match FindChar(s, sep)
    case None => [s]
    case Some(i) =>
      var rest := Split(s[i + 1..], sep);
      assert s == s[..i] + [sep] + s[i + 1..];
      [s[..i]] + rest
  }

  /** Splitting undoes joining when no piece contains the separator. */
  lemma {:induction false} SplitJoin(parts: seq<string>, sep: char)
    requires |parts| >= 1
    requires forall i :: 0 <= i < |parts| ==> sep !in parts[i]
    ensures Split(Join(parts, sep), sep) == parts
    decreases |parts|
  {
    if |parts| == 1 {
    } else {
      var s := Join(parts, sep);
      var tail := Join(parts[1..], sep);
      assert s == parts[0] + [sep] + tail;
      assert s[|parts[0]|] == sep;
      assert s[..|parts[0]|] == parts[0];
      assert FindChar(s, sep) == Some(|parts[0]|);
      assert s[|parts[0]| + 1..] == tail;
      SplitJoin(parts[1..], sep);
    }
  }

  // ---------------------------------------------------------------------------
  // Substring search
  // ---------------------------------------------------------------------------

  /** `pat` occurs in `s` starting at index `i`. */
  predicate MatchesAt(s: string, pat: string, i: int) {
    0 <= i && i + |pat| <= |s| && s[i..i + |pat|] == pat
  }

  /** `s.indexOf(pat, from)`: the first occurrence of `pat` at or after `from`. */
  function IndexOf(s: string, pat: string, from: nat): (r: Option<nat>)
    requires from <= |s|
    ensures r.Some? ==> from <= r.value && MatchesAt(s, pat, r.value)
    ensures r.Some? ==> forall j :: from <= j < r.value ==> !MatchesAt(s, pat, j)
    ensures r.None? ==> forall j :: from <= j <= |s| ==> !MatchesAt(s, pat, j)
    decreases |s| - from
  {
    if MatchesAt(s, pat, from) then Some(from)
    else if from == |s| then None
    else IndexOf(s, pat, from + 1)
  }

  /** The search finds an occurrence when none lies between the start and it. */
  lemma IndexOfFinds(s: string, pat: string, from: nat, k: nat)
    requires from <= k <= |s| && MatchesAt(s, pat, k)
    requires forall j :: from <= j < k ==> !MatchesAt(s, pat, j)
    ensures IndexOf(s, pat, from) == Some(k)
  {
  }

  /** `s.includes(pat)` */
  ghost predicate Contains(s: string, pat: string) {
    exists i :: MatchesAt(s, pat, i)
  }

  /** `s.includes(pat)`, computed by search. */
  function Includes(s: string, pat: string): (b: bool)
    ensures b <==> Contains(s, pat)
  {
    var r := IndexOf(s, pat, 0);
    if r.Some? then true
    else
      assert forall i :: MatchesAt(s, pat, i) ==> 0 <= i <= |s|;
      false
  }

  /** `s.endsWith(suffix)` */
  predicate EndsWith(s: string, suffix: string) {
    |suffix| <= |s| && s[|s| - |suffix|..] == suffix
  }

  /** `s.startsWith(prefix)` */
  predicate StartsWith(s: string, prefix: string) {
    |prefix| <= |s| && s[..|prefix|] == prefix
  }

  // ---------------------------------------------------------------------------
  // Case folding (ASCII letters) and string order
  // ---------------------------------------------------------------------------

  function LowerChar(c: char): (r: char)
    ensures 'A' <= c <= 'Z' ==> r as int == c as int + 32
    ensures !('A' <= c <= 'Z') ==> r == c
  {
    if 'A' <= c <= 'Z' then (c as int + 32) as char else c
  }

  /** `s.toLowerCase()` on ASCII letters; other characters are kept. */
  function Lower(s: string): (r: string)
    ensures |r| == |s|
    ensures forall i :: 0 <= i < |s| ==> r[i] == LowerChar(s[i])
  {
    seq(|s|, i requires 0 <= i < |s| => LowerChar(s[i]))
  }

  /** The decimal digit character for `0 <= k <= 9`. */
  function DigitChar(k: int): (c: char)
    requires 0 <= k <= 9
    ensures '0' <= c <= '9'
  {
    ('0' as int + k) as char
  }

  /** JavaScript's `a < b` on strings: lexicographic order on characters. */
  predicate StrLt(a: string, b: string)
    decreases |a|
  {
    if |a| == 0 then |b| > 0
    else if |b| == 0 then false
    else if a[0] != b[0] then a[0] < b[0]
    else StrLt(a[1..], b[1..])
  }

  lemma {:induction false} StrLtIrreflexive(a: string)
    ensures !StrLt(a, a)
    decreases |a|
  {
    if |a| > 0 { StrLtIrreflexive(a[1..]); }
  }

  lemma {:induction false} StrLtTransitive(a: string, b: string, c: string)
    requires StrLt(a, b) && StrLt(b, c)
    ensures StrLt(a, c)
    decreases |a|
  {
    if |a| > 0 && |b| > 0 && |c| > 0 && a[0] == b[0] && b[0] == c[0] {
      StrLtTransitive(a[1..], b[1..], c[1..]);
    }
  }

  lemma {:induction false} StrLtTotal(a: string, b: string)
    requires a != b
    ensures StrLt(a, b) || StrLt(b, a)
    decreases |a|
  {
    if |a| > 0 && |b| > 0 && a[0] == b[0] {
      assert a == [a[0]] + a[1..] && b == [b[0]] + b[1..];
      StrLtTotal(a[1..], b[1..]);
    }
  }

  lemma StrLtAsymmetric(a: string, b: string)
    requires StrLt(a, b)
    ensures !StrLt(b, a)
  {
    if StrLt(b, a) {
      StrLtTransitive(a, b, a);
      StrLtIrreflexive(a);
    }
  }

  // ---------------------------------------------------------------------------
  // Order-preserving filtering and de-duplication
  // ---------------------------------------------------------------------------

  /** `s.filter(keep)` */
  function Filter<T(!new)>(s: seq<T>, keep: T -> bool): (r: seq<T>)
    ensures |r| <= |s|
    ensures forall x :: x in r <==> x in s && keep(x)
  {
    if |s| == 0 then []
    else
      var rest := Filter(s[1..], keep);
      assert forall x :: x in s <==> x == s[0] || x in s[1..];
      if keep(s[0]) then [s[0]] + rest else rest
  }

  /** Filtering distributes over concatenation, i.e. it keeps the relative order of what it keeps. */
  lemma {:induction false} FilterAppend<T(!new)>(a: seq<T>, b: seq<T>, keep: T -> bool)
    ensures Filter(a + b, keep) == Filter(a, keep) + Filter(b, keep)
    decreases |a|
  {
    if |a| > 0 {
      assert (a + b)[1..] == a[1..] + b;
      FilterAppend(a[1..], b, keep);
    } else {
      assert a + b == b;
    }
  }

  /** Filtering with a predicate that holds everywhere changes nothing. */
  lemma {:induction false} FilterAll<T(!new)>(s: seq<T>, keep: T -> bool)
    requires forall i :: 0 <= i < |s| ==> keep(s[i])
    ensures Filter(s, keep) == s
    decreases |s|
  {
    if |s| > 0 { FilterAll(s[1..], keep); }
  }

  /** No element occurs twice. */
  predicate NoDuplicates<T(==)>(s: seq<T>) {
    forall i, j :: 0 <= i < j < |s| ==> s[i] != s[j]
  }

  /** Index of the first occurrence of `x` in `s`. */
  function FirstIndex<T(==)>(s: seq<T>, x: T): (k: nat)
    requires x in s
    ensures k < |s| && s[k] == x && x !in s[..k]
  {
    if s[0] == x then 0
    else
      var k := FirstIndex(s[1..], x);
      assert s[..k + 1] == [s[0]] + s[1..][..k];
      k + 1
  }

  /** Every element of `r` occurs in `s`, and `r` lists them in order of their first occurrence in `s`. */
  predicate InFirstOrder<T(==)>(s: seq<T>, r: seq<T>) {
    (forall i :: 0 <= i < |r| ==> r[i] in s)
    && forall i, j :: 0 <= i < j < |r| && r[i] in s && r[j] in s ==> FirstIndex(s, r[i]) < FirstIndex(s, r[j])
  }

  /** `[...new Set(s)]`: the distinct elements of `s`, in order of first occurrence (`DedupInFirstOrder`). */
  function Dedup<T(==,!new)>(s: seq<T>): (r: seq<T>)
    ensures NoDuplicates(r)
    ensures forall x :: x in r <==> x in s
    decreases |s|
  {
    if |s| == 0 then []
    else
      var p := Dedup(s[..|s| - 1]);
      assert s == s[..|s| - 1] + [s[|s| - 1]];
      if s[|s| - 1] in p then p else p + [s[|s| - 1]]
  }

  /** The distinct elements come out in the order in which they first occur. */
  lemma {:induction false} DedupInFirstOrder<T(!new)>(s: seq<T>)
    ensures InFirstOrder(s, Dedup(s))
    decreases |s|
  {
    if |s| > 0 {
      var init, last := s[..|s| - 1], s[|s| - 1];
      var p := Dedup(init);
      DedupInFirstOrder(init);
      assert s == init + [last];
      forall x | x in init ensures x in s && FirstIndex(s, x) == FirstIndex(init, x) {
        var k := FirstIndex(init, x);
        assert s[..k] == init[..k];
        FirstIndexUnique(s, x, k);
      }
      if last !in p {
        var r := p + [last];
        FirstIndexUnique(s, last, |s| - 1);
        forall i, j | 0 <= i < j < |r| && r[i] in s && r[j] in s ensures FirstIndex(s, r[i]) < FirstIndex(s, r[j]) {
          assert r[i] == p[i] && p[i] in init;
          if j < |p| {
            assert r[j] == p[j] && p[j] in init;
          }
        }
      } else {
        forall i, j | 0 <= i < j < |p| && p[i] in s && p[j] in s ensures FirstIndex(s, p[i]) < FirstIndex(s, p[j]) {
          assert p[i] in init && p[j] in init;
        }
      }
    }
  }

  /** Appending one element adds it to the de-duplicated list exactly when it is new. */
  lemma DedupSnoc<T(!new)>(s: seq<T>, x: T)
    ensures Dedup(s + [x]) == if x in s then Dedup(s) else Dedup(s) + [x]
  {
    assert (s + [x])[..|s|] == s;
  }

  /** The first occurrence is the index before which the element does not occur. */
  lemma FirstIndexUnique<T>(s: seq<T>, x: T, k: nat)
    requires k < |s| && s[k] == x && x !in s[..k]
    ensures FirstIndex(s, x) == k
  {
    var f := FirstIndex(s, x);
  }

  /** `s.findIndex(p)`: the index of the first element satisfying `p`. */
  function FindIndex<T>(s: seq<T>, p: T -> bool): (r: Option<nat>)
    ensures r.Some? ==> r.value < |s| && p(s[r.value])
    ensures r.Some? ==> forall j :: 0 <= j < r.value ==> !p(s[j])
    ensures r.None? ==> forall j :: 0 <= j < |s| ==> !p(s[j])
  {
    if |s| == 0 then None
    else if p(s[0]) then Some(0)
    else
      match FindIndex(s[1..], p)
      case None => None
      case Some(i) => Some(i + 1)
  }

  /** `s.find(p)`: the first element satisfying `p`. */
  function Find<T>(s: seq<T>, p: T -> bool): (r: Option<T>)
    ensures r.Some? ==> exists i :: 0 <= i < |s| && s[i] == r.value && p(s[i]) && forall j :: 0 <= j < i ==> !p(s[j])
    ensures r.None? ==> forall j :: 0 <= j < |s| ==> !p(s[j])
  {
    match FindIndex(s, p)
    case None => None
    case Some(i) => Some(s[i])
  }

  /** `s.some(p)` */
  predicate Any<T>(s: seq<T>, p: T -> bool) {
    exists i :: 0 <= i < |s| && p(s[i])
  }

  /** `s.slice(-n)`: the last `n` elements, or all of them when there are fewer. */
  function LastN<T>(s: seq<T>, n: nat): (r: seq<T>)
    ensures |r| == if |s| < n then |s| else n
    ensures r == s[|s| - |r|..]
  {
    if |s| <= n then s else s[|s| - n..]
  }

  /** `s.slice(0, n)`: the first `n` elements, or all of them when there are fewer. */
  function FirstN<T>(s: seq<T>, n: nat): (r: seq<T>)
    ensures |r| == if |s| < n then |s| else n
    ensures r == s[..|r|]
  {
    if |s| <= n then s else s[..n]
  }

  // ---------------------------------------------------------------------------
  // Comma-separated lists
  // ---------------------------------------------------------------------------

  predicate NonEmpty(s: string) { s != "" }

  function TrimAll(parts: seq<string>): (r: seq<string>)
    ensures |r| == |parts| && forall k :: 0 <= k < |parts| ==> r[k] == Trim(parts[k])
  {
    seq(|parts|, k requires 0 <= k < |parts| => Trim(parts[k]))
  }

  /** `s.split(',').map(t => t.trim()).filter(Boolean)`: the tags of a reply, the interests of a profile. */
  function SplitList(s: string): (items: seq<string>)
    ensures forall t :: t in items ==> t != "" && Trim(t) == t && ',' !in t
    ensures forall t :: t in items <==> t != "" && t in TrimAll(Split(s, ','))
  {
    var parts := Split(s, ',');
    var trimmed := TrimAll(parts);
    forall t | t in trimmed ensures Trim(t) == t && ',' !in t {
      var k :| 0 <= k < |trimmed| && trimmed[k] == t;
      TrimIdempotent(parts[k]);
      TrimIsSlice(parts[k]);
    }
    Filter(trimmed, NonEmpty)
  }

  /** The trimmed string is a piece of the original, so it holds no character the original lacks. */
  lemma TrimIsSlice(s: string)
    ensures forall c :: c in Trim(s) ==> c in s
  {
    var r := Trim(s);
    var a := TrimOffset(s);
    forall c | c in r ensures c in s {
      var k :| 0 <= k < |r| && r[k] == c;
      assert s[a + k] == r[k];
    }
  }

  /** Written items come back: trimmed, non-empty, comma-free items joined with commas split into themselves. */
  lemma SplitListOfJoined(items: seq<string>)
    requires |items| >= 1
    requires forall k :: 0 <= k < |items| ==> items[k] != "" && Trim(items[k]) == items[k] && ',' !in items[k]
    ensures SplitList(Join(items, ',')) == items
  {
    SplitJoin(items, ',');
    var trimmed := TrimAll(items);
    assert trimmed == items;
    FilterAll(items, NonEmpty);
  }
}
