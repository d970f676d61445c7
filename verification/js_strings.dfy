/** The JavaScript string and array operations the plugin relies on, with
    their JavaScript semantics over a string of characters: `startsWith`, `endsWith`, `indexOf`,
    `replace` with a string pattern (first occurrence only), the global
    character-class `replace`, `split` on one character, `join`, `slice`
    and `substring`, and the decimal rendering of a number in a template
    literal. */
module JsStrings {
  import opened Wrappers

  predicate StartsWith(s: string, prefix: string) {
    |prefix| <= |s| && s[..|prefix|] == prefix
  }

  predicate EndsWith(s: string, suffix: string) {
    |suffix| <= |s| && s[|s| - |suffix|..] == suffix
  }

  predicate OccursAt(s: string, pat: string, i: int) {
    0 <= i && i + |pat| <= |s| && s[i..i + |pat|] == pat
  }

  /** `s.indexOf(pat, from)`: the first occurrence of `pat` at or after `from`. */
  function IndexFrom(s: string, pat: string, from: nat): (r: Option<nat>)
    ensures r.Some? ==> from <= r.value && OccursAt(s, pat, r.value)
    ensures forall j :: from <= j && (r.None? || j < r.value) ==> !OccursAt(s, pat, j)
    decreases |s| - from
  {
    if from + |pat| > |s| then None
    else if s[from..from + |pat|] == pat then Some(from)
    else IndexFrom(s, pat, from + 1)
  }

  /** `s.indexOf(pat)`, with `None` for JavaScript's `-1`. */
  function IndexOf(s: string, pat: string): (r: Option<nat>)
    ensures r.Some? ==> OccursAt(s, pat, r.value)
    ensures forall j :: 0 <= j && (r.None? || j < r.value) ==> !OccursAt(s, pat, j)
  {
    IndexFrom(s, pat, 0)
  }

  /** `s.replace(pat, '')` with a string pattern: removes the FIRST
      occurrence of `pat`, wherever it is, and leaves `s` alone when there
      is none. */
  function RemoveFirst(s: string, pat: string): string {
    match IndexOf(s, pat)
    case None => s
    case Some(i) => s[..i] + s[i + |pat|..]
  }

  /** Removing a prefix that is present strips exactly that prefix. */
  lemma RemoveFirstOfPrefix(s: string, pat: string)
    requires StartsWith(s, pat)
    ensures RemoveFirst(s, pat) == s[|pat|..]
  {
    assert OccursAt(s, pat, 0);
  }

  /** No character of `s` is one of `chars`. */
  predicate Lacks(s: string, chars: set<char>) {
    forall i :: 0 <= i < |s| ==> s[i] !in chars
  }

  /** `s.replace(/[...]/g, '')`: every character of the class removed. */
  function RemoveAll(s: string, chars: set<char>): string {
    if s == [] then []
    else (if s[0] in chars then [] else [s[0]]) + RemoveAll(s[1..], chars)
  }

  /** None of the removed characters is left, every character left comes
      from `s`, and a string without them is unchanged. */
  lemma {:induction false} RemoveAllRemoves(s: string, chars: set<char>)
    ensures |RemoveAll(s, chars)| <= |s|
    ensures forall c :: c in RemoveAll(s, chars) ==> c in s && c !in chars
    ensures Lacks(s, chars) ==> RemoveAll(s, chars) == s
  {
    if s != [] {
      RemoveAllRemoves(s[1..], chars);
      assert forall c :: c in s[1..] ==> c in s;
    }
  }

  /** Removing characters distributes over concatenation. */
  lemma {:induction false} RemoveAllAppend(a: string, b: string, chars: set<char>)
    ensures RemoveAll(a + b, chars) == RemoveAll(a, chars) + RemoveAll(b, chars)
  {
    if a == [] {
      assert a + b == b;
    } else {
      assert (a + b)[1..] == a[1..] + b;
      RemoveAllAppend(a[1..], b, chars);
    }
  }

  /** The index of the first `c` in `s`. */
  function CharIndex(s: string, c: char): (r: Option<nat>)
    ensures r.Some? ==> r.value < |s| && s[r.value] == c && c !in s[..r.value]
    ensures r.None? ==> c !in s
  {
    if s == [] then None
    else if s[0] == c then Some(0)
    else match CharIndex(s[1..], c)
      case None => None
      case Some(i) =>
        assert s[..i + 1] == [s[0]] + s[1..][..i];
        Some(i + 1)
  }

  /** `s.split(sep)` for a one-character separator: never empty, and no part
      holds the separator. */
  function Split(s: string, sep: char): (parts: seq<string>)
    ensures |parts| >= 1
    ensures forall i :: 0 <= i < |parts| ==> sep !in parts[i]
    decreases |s|
  {
    match CharIndex(s, sep)
    case None => [s]
    case Some(i) => [s[..i]] + Split(s[i + 1..], sep)
  }

  /** `parts.join(sep)`. */
  function Join(parts: seq<string>, sep: string): string {
    if |parts| == 0 then ""
    else if |parts| == 1 then parts[0]
    else parts[0] + sep + Join(parts[1..], sep)
  }

  /** Splitting and joining back on the same character gives the original. */
  lemma {:induction false} JoinSplit(s: string, sep: char)
    ensures Join(Split(s, sep), [sep]) == s
    decreases |s|
  {
    match CharIndex(s, sep)
    case None =>
    case Some(i) =>
      var rest := s[i + 1..];
      var tail := Split(rest, sep);
      var parts := [s[..i]] + tail;
      assert Split(s, sep) == parts;
      JoinSplit(rest, sep);
      assert parts[1..] == tail;
      assert Join(parts, [sep]) == s[..i] + [sep] + Join(tail, [sep]);
      assert s == s[..i] + [sep] + rest;
  }

  lemma {:induction false} CharIndexAfter(a: string, c: char, b: string)
    requires c !in a
    ensures CharIndex(a + [c] + b, c) == Some(|a|)
  {
    if a != [] {
      assert (a + [c] + b)[1..] == a[1..] + [c] + b;
      CharIndexAfter(a[1..], c, b);
    }
  }

  /** Joining parts free of the separator and splitting again recovers them. */
  lemma {:induction false} SplitJoin(parts: seq<string>, sep: char)
    requires |parts| >= 1
    requires forall i :: 0 <= i < |parts| ==> sep !in parts[i]
    ensures Split(Join(parts, [sep]), sep) == parts
  {
    if |parts| > 1 {
      var rest := Join(parts[1..], [sep]);
      CharIndexAfter(parts[0], sep, rest);
      var s := parts[0] + [sep] + rest;
      assert s[..|parts[0]|] == parts[0];
      assert s[|parts[0]| + 1..] == rest;
      SplitJoin(parts[1..], sep);
      assert parts == [parts[0]] + parts[1..];
    }
  }

  /** The join of a tail of the parts is a suffix of the join of them all. */
  lemma {:induction false} JoinTailIsSuffix(parts: seq<string>, sep: string, k: nat)
    requires k < |parts|
    ensures EndsWith(Join(parts, sep), Join(parts[k..], sep))
  {
    if k > 0 {
      JoinTailIsSuffix(parts[1..], sep, k - 1);
      assert parts[1..][k - 1..] == parts[k..];
    }
  }

  /** `s.split('/').pop()`: the text after the last `/`, or all of `s`. */
  function LastSegment(s: string): string {
    var parts := Split(s, '/');
    parts[|parts| - 1]
  }

  /** The last segment is a slash-free suffix of the path, and it is the
      whole path exactly when the path has no slash. */
  lemma LastSegmentIsSuffix(s: string)
    ensures '/' !in LastSegment(s)
    ensures EndsWith(s, LastSegment(s))
    ensures LastSegment(s) == s <==> '/' !in s
  {
    var parts := Split(s, '/');
    JoinSplit(s, '/');
    JoinTailIsSuffix(parts, "/", |parts| - 1);
    assert parts[|parts| - 1..] == [LastSegment(s)];
    if '/' in s {
      assert LastSegment(s) != s;
    }
  }

  /** Appending one more part to a non-empty list of parts. */
  lemma {:induction false} JoinAppend(parts: seq<string>, sep: string, x: string)
    requires |parts| >= 1
    ensures Join(parts + [x], sep) == Join(parts, sep) + sep + x
  {
    if |parts| > 1 {
      JoinAppend(parts[1..], sep, x);
      assert (parts + [x])[1..] == parts[1..] + [x];
    } else {
      assert (parts + [x])[1..] == [x];
    }
  }

  /** The segment after the last `/` is the last segment. */
  lemma LastSegmentAfterSlash(dir: string, name: string)
    requires '/' !in name
    ensures LastSegment(dir + "/" + name) == name
  {
    var parts := Split(dir, '/') + [name];
    JoinSplit(dir, '/');
    JoinAppend(Split(dir, '/'), "/", name);
    SplitJoin(parts, '/');
  }

  /** `s.split('/').slice(-n).join('/')` for `n >= 1`: the last `n` segments. */
  function LastSegments(s: string, n: nat): string
    requires n >= 1
  {
    var parts := Split(s, '/');
    Join(parts[|parts| - Min(n, |parts|)..], "/")
  }

  function Min(a: nat, b: nat): nat {
    if a <= b then a else b
  }

  /** `s.slice(0, n)`. */
  function SliceFront(s: string, n: nat): string {
    s[..Min(n, |s|)]
  }

  /** `s.slice(-n)` for `n >= 1` (JavaScript's `slice(-0)` is the whole string). */
  function SliceBack(s: string, n: nat): string
    requires n >= 1
  {
    s[|s| - Min(n, |s|)..]
  }

  /** `s.substring(start, end)` for `start <= end`. */
  function Substring(s: string, start: nat, end: nat): string
    requires start <= end
  {
    s[Min(start, |s|)..Min(end, |s|)]
  }

  /** `[...].filter(Boolean)` on strings: drops the empty ones. */
  function NonEmpty(xs: seq<string>): (r: seq<string>)
    ensures forall i :: 0 <= i < |r| ==> r[i] != ""
    ensures |r| <= |xs|
  {
    if xs == [] then []
    else (if xs[0] == "" then [] else [xs[0]]) + NonEmpty(xs[1..])
  }

  function DigitChar(d: nat): char
    requires d < 10
  {
    "0123456789"[d]
  }

  /** A number interpolated into a template literal, for `n >= 0`. */
  function Decimal(n: nat): (r: string)
    ensures |r| >= 1
    ensures forall i :: 0 <= i < |r| ==> '0' <= r[i] <= '9'
  {
    if n < 10 then [DigitChar(n)] else Decimal(n / 10) + [DigitChar(n % 10)]
  }
}
