/** The labelled-line reply format (`LABEL: value`) read the way the
    analyzers' regular expressions read it. Each `...At` function is one
    pattern tried at one start position, with JavaScript's backtracking
    order; each `...Field` function is `String.prototype.match`, which takes
    the match at the leftmost position where the pattern succeeds. */
module ReplyScan {
  import opened Wrappers
  import opened JsText

  /** The first position in `from..n` at which `m` matches. */
  function FirstMatch<T>(n: nat, from: nat, m: nat -> Option<T>): (r: Option<nat>)
    ensures r.Some? ==> from <= r.value <= n && m(r.value).Some?
    ensures r.Some? ==> forall k :: from <= k < r.value ==> m(k).None?
    ensures r.None? ==> forall k :: from <= k <= n ==> m(k).None?
    decreases if from <= n then n + 1 - from else 0
  {
    if from > n then None
    else if m(from).Some? then Some(from)
    else FirstMatch(n, from + 1, m)
  }

  /** A match found at `i` is the leftmost one when nothing matches before `i`. */
  lemma FirstMatchIs<T>(n: nat, m: nat -> Option<T>, i: nat)
    requires i <= n && m(i).Some?
    requires forall k :: 0 <= k < i ==> m(k).None?
    ensures FirstMatch(n, 0, m) == Some(i)
  {
  }

  /** `FirstMatch` from 0 finds every position that is the leftmost match. */
  lemma FirstMatchLeftmost<T>(n: nat, m: nat -> Option<T>)
    ensures FirstMatch(n, 0, m).None? <==> forall k :: 0 <= k <= n ==> m(k).None?
    ensures forall i :: 0 <= i <= n && m(i).Some? && (forall k :: 0 <= k < i ==> m(k).None?) ==>
                        FirstMatch(n, 0, m) == Some(i)
  {
    forall i | 0 <= i <= n && m(i).Some? && (forall k :: 0 <= k < i ==> m(k).None?)
      ensures FirstMatch(n, 0, m) == Some(i)
    {
      FirstMatchIs(n, m, i);
    }
  }

  /** `key` occurs at `i`, compared case-insensitively (the `i` flag). */
  predicate LabelAt(s: string, i: nat, key: string) {
    i + |key| <= |s| && EqualFold(s[i..i + |key|], key)
  }

  /** Some key of `keys` occurs at `i`. */
  predicate AnyLabelAt(s: string, i: nat, keys: seq<string>) {
    exists t :: t in keys && LabelAt(s, i, t)
  }

  /** The largest `k` in `lo..hi-1` with `!IsLineTerminator(s[k])`: where `.+`
      starts once a greedy `\s*` has given characters back. */
  function LastNonTerminator(s: string, lo: nat, hi: nat): (r: Option<nat>)
    requires lo <= hi <= |s|
    ensures r.Some? ==> lo <= r.value < hi && !IsLineTerminator(s[r.value])
    ensures r.Some? ==> forall k :: r.value < k < hi ==> IsLineTerminator(s[k])
    ensures r.None? ==> forall k :: lo <= k < hi ==> IsLineTerminator(s[k])
    decreases hi - lo
  {
    if hi == lo then None
    else if !IsLineTerminator(s[hi - 1]) then Some(hi - 1)
    else LastNonTerminator(s, lo, hi - 1)
  }

  /** The capture of `\s*(.+)` from `a`. The greedy `\s*` may span line
      breaks; `.+` runs to the end of its line. When only white space is left
      until the end of the input, `\s*` gives back its last non-terminator
      character, which then forms the capture. */
  function LineFrom(s: string, a: nat): (r: Option<string>)
    requires a <= |s|
    ensures r.Some? ==> r.value != [] && forall k :: 0 <= k < |r.value| ==> !IsLineTerminator(r.value[k])
    ensures SpaceEnd(s, a) < |s| ==> var w := SpaceEnd(s, a); r == Some(s[w..LineEnd(s, w)])
    ensures r.None? <==> forall k :: a <= k < |s| ==> IsLineTerminator(s[k])
  {
    var w := SpaceEnd(s, a);
    if w < |s| then Some(s[w..LineEnd(s, w)])
    else match LastNonTerminator(s, a, w)
      case Some(k) => Some(s[k..LineEnd(s, k)])
      case None => None
  }

  /** The capture of `/LABEL\s*(.+)/i` at `i`. */
  function LineAt(s: string, key: string, i: nat): (r: Option<string>)
    ensures r.Some? ==> LabelAt(s, i, key) && r.value != []
    ensures r.Some? ==> forall k :: 0 <= k < |r.value| ==> !IsLineTerminator(r.value[k])
    ensures LabelAt(s, i, key) && SpaceEnd(s, i + |key|) < |s| ==>
      var w := SpaceEnd(s, i + |key|); r == Some(s[w..LineEnd(s, w)])
    ensures r.None? <==> !LabelAt(s, i, key) || forall k :: i + |key| <= k < |s| ==> IsLineTerminator(s[k])
  {
    if LabelAt(s, i, key) then LineFrom(s, i + |key|) else None
  }

  /** `(m = s.match(/LABEL\s*(.+)/i)) ? m[1].trim() : <absent>` */
  function LineField(s: string, key: string): (r: Option<string>)
    ensures r.None? <==> forall j :: 0 <= j <= |s| ==> LineAt(s, key, j).None?
    ensures forall j :: 0 <= j <= |s| && LineAt(s, key, j).Some? &&
                        (forall k :: 0 <= k < j ==> LineAt(s, key, k).None?) ==>
                        r == Some(Trim(LineAt(s, key, j).value))
  {
    var m := j => LineAt(s, key, j);
    assert forall k :: m(k) == LineAt(s, key, k);
    FirstMatchLeftmost(|s|, m);
    match FirstMatch(|s|, 0, m)
    case Some(p) => Some(Trim(m(p).value))
    case None => None
  }

  /** `.` does not match a line terminator, so the field stays on one line. */
  lemma LineFieldOnOneLine(s: string, key: string)
    ensures LineField(s, key).Some? ==>
      forall k :: 0 <= k < |LineField(s, key).value| ==> !IsLineTerminator(LineField(s, key).value[k])
  {
    var m := j => LineAt(s, key, j);
    assert forall k :: m(k) == LineAt(s, key, k);
    match FirstMatch(|s|, 0, m)
    case Some(p) =>
      var v := LineAt(s, key, p).value;
      assert LineField(s, key) == Some(Trim(v));
      TrimKeeps(v, OnLine);
    case None =>
  }

  /** First match wins: when no earlier occurrence of `key` matches and
      something other than white space follows the occurrence at `i`, the
      field is the rest of that line. */
  lemma {:induction false} LineFieldFirst(s: string, key: string, i: nat)
    requires LabelAt(s, i, key) && SpaceEnd(s, i + |key|) < |s|
    requires forall k :: 0 <= k < i ==> LineAt(s, key, k).None?
    ensures var w := SpaceEnd(s, i + |key|);
            LineField(s, key) == Some(Trim(s[w..LineEnd(s, w)]))
  {
    assert LineAt(s, key, i).Some?;
  }

  /** The capture of `/LABEL\s*(\d+)/i` at `i` (white space cannot hold a
      digit, so backtracking into `\s*` never helps). */
  function DigitsAt(s: string, key: string, i: nat): (r: Option<string>)
    ensures r.Some? ==> LabelAt(s, i, key) && r.value != []
    ensures r.Some? ==> forall k :: 0 <= k < |r.value| ==> IsDigit(r.value[k])
    ensures r.Some? <==> LabelAt(s, i, key) && var w := SpaceEnd(s, i + |key|); w < |s| && IsDigit(s[w])
    ensures r.Some? ==> var w := SpaceEnd(s, i + |key|); r.value == s[w..DigitEnd(s, w)]
  {
    if !LabelAt(s, i, key) then None
    else
      var w := SpaceEnd(s, i + |key|);
      var e := DigitEnd(s, w);
      if e == w then None else Some(s[w..e])
  }

  /** `(m = s.match(/LABEL\s*(\d+)/i)) ? parseInt(m[1]) : <absent>` */
  function DigitsField(s: string, key: string): (r: Option<nat>)
    ensures r.None? <==> forall j :: 0 <= j <= |s| ==> DigitsAt(s, key, j).None?
    ensures forall j :: 0 <= j <= |s| && DigitsAt(s, key, j).Some? &&
                        (forall k :: 0 <= k < j ==> DigitsAt(s, key, k).None?) ==>
                        r == Some(DigitsValue(DigitsAt(s, key, j).value))
  {
    var m := j => DigitsAt(s, key, j);
    assert forall k :: m(k) == DigitsAt(s, key, k);
    FirstMatchLeftmost(|s|, m);
    match FirstMatch(|s|, 0, m)
    case Some(p) => Some(DigitsValue(m(p).value))
    case None => None
  }

  /** `m ? parseInt(m[1]) : d` for `m = s.match(/LABEL\s*(\d+)/i)`: the
      number after the leftmost label followed by digits, `d` when no
      position matches (a label followed by other text included). */
  function DigitsOr(s: string, key: string, d: nat): (n: nat)
    ensures (forall j :: 0 <= j <= |s| ==> DigitsAt(s, key, j).None?) ==> n == d
    ensures forall j :: 0 <= j <= |s| && DigitsAt(s, key, j).Some? &&
                        (forall k :: 0 <= k < j ==> DigitsAt(s, key, k).None?) ==>
                        n == DigitsValue(DigitsAt(s, key, j).value)
  {
    DigitsField(s, key).GetOr(d)
  }

  /** The first key occurrence followed by digits decides the field, however
      many occurrences without digits come before it. */
  lemma {:induction false} DigitsFieldFirst(s: string, key: string, i: nat)
    requires LabelAt(s, i, key)
    requires var w := SpaceEnd(s, i + |key|); DigitEnd(s, w) > w
    requires forall k :: 0 <= k < i ==> DigitsAt(s, key, k).None?
    ensures var w := SpaceEnd(s, i + |key|);
            DigitsField(s, key) == Some(DigitsValue(s[w..DigitEnd(s, w)]))
  {
    assert DigitsAt(s, key, i).Some?;
  }

  /** The capture of `/LABEL\s*([\d,]+)/i` at `i`. */
  function DigitCommaAt(s: string, key: string, i: nat): (r: Option<string>)
    ensures r.Some? ==> LabelAt(s, i, key) && r.value != []
    ensures r.Some? ==> forall k :: 0 <= k < |r.value| ==> IsDigitOrComma(r.value[k])
    ensures r.Some? <==> LabelAt(s, i, key) && var w := SpaceEnd(s, i + |key|); w < |s| && IsDigitOrComma(s[w])
    ensures r.Some? ==> var w := SpaceEnd(s, i + |key|); r.value == s[w..RunEnd(s, w, IsDigitOrComma)]
  {
    if !LabelAt(s, i, key) then None
    else
      var w := SpaceEnd(s, i + |key|);
      var e := RunEnd(s, w, IsDigitOrComma);
      if e == w then None else Some(s[w..e])
  }

  /** `(m = s.match(/LABEL\s*([\d,]+)/i)) ? m[1] : <absent>` */
  function DigitCommaField(s: string, key: string): (r: Option<string>)
    ensures r.Some? ==> r.value != [] && forall k :: 0 <= k < |r.value| ==> IsDigitOrComma(r.value[k])
    ensures r.None? <==> forall j :: 0 <= j <= |s| ==> DigitCommaAt(s, key, j).None?
    ensures forall j :: 0 <= j <= |s| && DigitCommaAt(s, key, j).Some? &&
                        (forall k :: 0 <= k < j ==> DigitCommaAt(s, key, k).None?) ==>
                        r == DigitCommaAt(s, key, j)
  {
    var m := j => DigitCommaAt(s, key, j);
    assert forall k :: m(k) == DigitCommaAt(s, key, k);
    FirstMatchLeftmost(|s|, m);
    match FirstMatch(|s|, 0, m)
    case Some(p) => m(p)
    case None => None
  }

  /** The first position at or after `j` where a lookahead `(?=T1|...|$)`
      succeeds. */
  function StopAt(s: string, keys: seq<string>, j: nat): (r: nat)
    requires j <= |s|
    ensures j <= r <= |s|
    ensures r == |s| || AnyLabelAt(s, r, keys)
    ensures forall k :: j <= k < r ==> !AnyLabelAt(s, k, keys)
    decreases |s| - j
  {
    if j == |s| || AnyLabelAt(s, j, keys) then j else StopAt(s, keys, j + 1)
  }

  /** The capture of `\s*(.+?)(?=T1|...|$)` from `a` with the `s` flag: `.`
      matches line breaks too, so the lazy capture takes at least one
      character and stops at the first following terminator key or at the
      end of the input. */
  function LazyFrom(s: string, keys: seq<string>, a: nat): (r: Option<string>)
    requires a <= |s|
    ensures r.Some? ==> r.value != []
    ensures SpaceEnd(s, a) < |s| ==> var w := SpaceEnd(s, a); r == Some(s[w..StopAt(s, keys, w + 1)])
    ensures r.None? <==> a == |s|
  {
    var w := SpaceEnd(s, a);
    if w < |s| then Some(s[w..StopAt(s, keys, w + 1)])
    else if w > a then Some(s[w - 1..w])
    else None
  }

  /** The capture of `/LABEL\s*(.+?)(?=T1|...|$)/is` at `i`. */
  function LazyAt(s: string, key: string, keys: seq<string>, i: nat): (r: Option<string>)
    ensures r.Some? ==> LabelAt(s, i, key) && r.value != []
    ensures LabelAt(s, i, key) && SpaceEnd(s, i + |key|) < |s| ==>
      var w := SpaceEnd(s, i + |key|); r == Some(s[w..StopAt(s, keys, w + 1)])
    ensures r.None? <==> !LabelAt(s, i, key) || i + |key| == |s|
  {
    if LabelAt(s, i, key) then LazyFrom(s, keys, i + |key|) else None
  }

  /** `(m = s.match(/LABEL\s*(.+?)(?=T1|...|$)/is)) ? m[1].trim() : <absent>` */
  function LazyField(s: string, key: string, keys: seq<string>): (r: Option<string>)
    ensures r.None? <==> forall j :: 0 <= j <= |s| ==> LazyAt(s, key, keys, j).None?
    ensures forall j :: 0 <= j <= |s| && LazyAt(s, key, keys, j).Some? &&
                        (forall k :: 0 <= k < j ==> LazyAt(s, key, keys, k).None?) ==>
                        r == Some(Trim(LazyAt(s, key, keys, j).value))
  {
    var m := j => LazyAt(s, key, keys, j);
    assert forall k :: m(k) == LazyAt(s, key, keys, k);
    FirstMatchLeftmost(|s|, m);
    match FirstMatch(|s|, 0, m)
    case Some(p) => Some(Trim(m(p).value))
    case None => None
  }

  /** `m ? m[1].trim() : d` for the lazy pattern: the trimmed text after
      the leftmost matching label, `d` when no position matches (a label
      followed only by white space included). */
  function LazyOr(s: string, key: string, keys: seq<string>, d: string): (t: string)
    ensures (forall j :: 0 <= j <= |s| ==> LazyAt(s, key, keys, j).None?) ==> t == d
    ensures forall j :: 0 <= j <= |s| && LazyAt(s, key, keys, j).Some? &&
                        (forall k :: 0 <= k < j ==> LazyAt(s, key, keys, k).None?) ==>
                        t == Trim(LazyAt(s, key, keys, j).value)
  {
    LazyField(s, key, keys).GetOr(d)
  }

  /** The first key occurrence with text after it decides the field, which
      runs up to the next terminator key or the end of the input; an earlier
      occurrence matches only when it ends the input. */
  lemma {:induction false} LazyFieldFirst(s: string, key: string, keys: seq<string>, i: nat)
    requires LabelAt(s, i, key) && SpaceEnd(s, i + |key|) < |s|
    requires forall k :: 0 <= k < i ==> LazyAt(s, key, keys, k).None?
    ensures var w := SpaceEnd(s, i + |key|);
            LazyField(s, key, keys) == Some(Trim(s[w..StopAt(s, keys, w + 1)]))
  {
    assert LazyAt(s, key, keys, i).Some?;
  }
}
