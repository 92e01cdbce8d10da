/**
 * The string utilities of string_helper.cpp: split, join, replace and
 * get_new_file_name. Strings are sequences of characters.
 */
module StringHelper {
  import opened Wrappers

  /** The delimiter `d` occurs in `s` starting at position `i`. */
  predicate OccursAt(s: string, d: string, i: nat) {
    i + |d| <= |s| && s[i..i + |d|] == d
  }

  /** No occurrence of `d` in `s` starts at a position in [from, to). */
  ghost predicate NoneBetween(s: string, d: string, from: nat, to: nat) {
    forall j :: from <= j < to ==> !OccursAt(s, d, j)
  }

  /** `d` occurs somewhere in `t`. */
  ghost predicate Contains(t: string, d: string) {
    exists j :: 0 <= j <= |t| && OccursAt(t, d, j)
  }

  /** `s.find(d, from)`: the leftmost occurrence of `d` at or after `from`. */
  function FindFrom(s: string, d: string, from: nat): (r: Option<nat>)
    requires from <= |s|
    ensures r.Some? ==> from <= r.value && r.value + |d| <= |s|
    decreases |s| - from
  {
    if OccursAt(s, d, from) then Some(from)
    else if from == |s| then None
    else FindFrom(s, d, from + 1)
  }

  /** The occurrence `FindFrom` returns is the leftmost at or after `from`, and it reports none only when there is none. */
  lemma {:induction false} FindFromSpec(s: string, d: string, from: nat)
    requires from <= |s|
    ensures FindFrom(s, d, from).Some? ==> OccursAt(s, d, FindFrom(s, d, from).value)
    ensures FindFrom(s, d, from).Some? ==> NoneBetween(s, d, from, FindFrom(s, d, from).value)
    ensures FindFrom(s, d, from).None? ==> NoneBetween(s, d, from, |s| + 1)
    decreases |s| - from
  {
    if !OccursAt(s, d, from) && from < |s| {
      FindFromSpec(s, d, from + 1);
    }
  }

  /**
   * With an empty delimiter `find` succeeds at `pos_start` itself, so one turn of the loop of
   * `split` pushes an empty token and leaves `pos_start` where it was: the loop never ends.
   * `SplitTokens` and `Split` therefore require a non-empty delimiter.
   */
  lemma EmptyDelimiterStalls(s: string, from: nat)
    requires from <= |s|
    ensures FindFrom(s, "", from) == Some(from)
    ensures s[from..FindFrom(s, "", from).value] == ""
  {
  }

  /** The tokens `split(s, d)` returns: the pieces between the leftmost non-overlapping occurrences of `d`. */
  function SplitTokens(s: string, d: string): (r: seq<string>)
    requires |d| > 0
    ensures |r| >= 1
    decreases |s|
  {
    match FindFrom(s, d, 0)
    case None => [s]
    case Some(p) => [s[..p]] + SplitTokens(s[p + |d|..], d)
  }

  /** No token returned by `split` contains the delimiter. */
  lemma {:induction false} TokensAvoidDelimiter(s: string, d: string)
    requires |d| > 0
    ensures forall i :: 0 <= i < |SplitTokens(s, d)| ==> !Contains(SplitTokens(s, d)[i], d)
    decreases |s|
  {
    FindFromSpec(s, d, 0);
    match FindFrom(s, d, 0)
    case None =>
    case Some(p) =>
      NoPieceBeforeFirst(s, d, p);
      TokensAvoidDelimiter(s[p + |d|..], d);
      var r := SplitTokens(s, d);
      assert r == [s[..p]] + SplitTokens(s[p + |d|..], d);
      forall i | 0 <= i < |r| ensures !Contains(r[i], d) {
        if i > 0 {
          assert r[i] == SplitTokens(s[p + |d|..], d)[i - 1];
        }
      }
  }

  /** The piece before the first occurrence of `d` does not contain `d`. */
  lemma NoPieceBeforeFirst(s: string, d: string, p: nat)
    requires |d| > 0 && p <= |s| && NoneBetween(s, d, 0, p)
    ensures !Contains(s[..p], d)
  {
    forall j | 0 <= j <= p && OccursAt(s[..p], d, j)
      ensures OccursAt(s, d, j)
    {
      assert s[..p][j..j + |d|] == s[j..j + |d|];
    }
  }

  /** `join(v, d)`: the elements of `v` with `d` between consecutive ones. */
  function Joined(v: seq<string>, d: string): string
    decreases |v|
  {
    if |v| == 0 then ""
    else if |v| == 1 then v[0]
    else v[0] + d + Joined(v[1..], d)
  }

  function SumLengths(v: seq<string>): nat
    decreases |v|
  {
    if |v| == 0 then 0 else |v[0]| + SumLengths(v[1..])
  }

  /** Occurrences of `d` in a suffix are the occurrences in `s` shifted by `k`. */
  lemma OccursShift(s: string, d: string, k: nat, j: nat)
    requires k <= |s|
    ensures OccursAt(s[k..], d, j) == OccursAt(s, d, k + j)
  {
    if j + |d| <= |s| - k {
      assert s[k..][j..j + |d|] == s[k + j..k + j + |d|];
    }
  }

  /** Searching the suffix `s[k..]` from `j` is searching `s` from `k + j`, shifted by `k`. */
  lemma {:induction false} FindShiftFrom(s: string, d: string, k: nat, j: nat)
    requires k + j <= |s|
    ensures FindFrom(s[k..], d, j) == match FindFrom(s, d, k + j) case None => None case Some(p) => Some(p - k)
    decreases |s| - k - j
  {
    OccursShift(s, d, k, j);
    if !OccursAt(s, d, k + j) && k + j < |s| {
      FindShiftFrom(s, d, k, j + 1);
    }
  }

  /** Searching from `k` is searching the suffix `s[k..]` from 0. */
  lemma FindShift(s: string, d: string, k: nat)
    requires k <= |s|
    ensures FindFrom(s[k..], d, 0) == match FindFrom(s, d, k) case None => None case Some(p) => Some(p - k)
  {
    FindShiftFrom(s, d, k, 0);
  }

  /** One step of the split loop: the suffix from `k` splits into the piece before the next occurrence and the rest. */
  lemma SplitStep(s: string, d: string, k: nat)
    requires |d| > 0 && k <= |s|
    ensures FindFrom(s, d, k).None? ==> SplitTokens(s[k..], d) == [s[k..]]
    ensures FindFrom(s, d, k).Some? ==>
      var p := FindFrom(s, d, k).value;
      SplitTokens(s[k..], d) == [s[k..p]] + SplitTokens(s[p + |d|..], d)
  {
    var t := s[k..];
    FindShift(s, d, k);
    SplitUnfold(t, d);
    match FindFrom(s, d, k)
    case None =>
    case Some(p) =>
      assert t[..p - k] == s[k..p];
      assert t[p - k + |d|..] == s[p + |d|..];
  }

  /** One unfolding of `SplitTokens`. */
  lemma SplitUnfold(s: string, d: string)
    requires |d| > 0
    ensures FindFrom(s, d, 0).None? ==> SplitTokens(s, d) == [s]
    ensures FindFrom(s, d, 0).Some? ==>
      var p := FindFrom(s, d, 0).value;
      SplitTokens(s, d) == [s[..p]] + SplitTokens(s[p + |d|..], d)
  {
  }


  /** The tokens of `s` from position `k` on, searched in place as the split loop does. */
  function SplitFrom(s: string, d: string, k: nat): (r: seq<string>)
    requires |d| > 0 && k <= |s|
    decreases |s| - k
  {
    match FindFrom(s, d, k)
    case None => [s[k..]]
    case Some(p) => [s[k..p]] + SplitFrom(s, d, p + |d|)
  }

  /** Searching in place from `k` gives the tokens of the suffix `s[k..]`. */
  lemma {:induction false} SplitFromSuffix(s: string, d: string, k: nat)
    requires |d| > 0 && k <= |s|
    ensures SplitFrom(s, d, k) == SplitTokens(s[k..], d)
    decreases |s| - k
  {
    SplitStep(s, d, k);
    match FindFrom(s, d, k)
    case None =>
    case Some(p) =>
      SplitFromSuffix(s, d, p + |d|);
  }

  lemma AppendAssoc<T>(a: seq<T>, b: seq<T>, c: seq<T>)
    ensures a + (b + c) == (a + b) + c
  {
  }

  /** `split` as the source writes it: a loop that searches from `pos_start` and pushes each token. */
  method Split(s: string, d: string) returns (res: seq<string>)
    requires |d| > 0
    ensures res == SplitTokens(s, d)
  {
    var posStart := 0;
    res := [];
    var posEnd := FindFrom(s, d, posStart);
    while posEnd.Some?
      invariant posStart <= |s|
      invariant posEnd == FindFrom(s, d, posStart)
      invariant res + SplitFrom(s, d, posStart) == SplitFrom(s, d, 0)
      decreases |s| - posStart
    {
      var p := posEnd.value;
      var token := s[posStart..p];
      ghost var rest := SplitFrom(s, d, p + |d|);
      assert SplitFrom(s, d, posStart) == [token] + rest;
      AppendAssoc(res, [token], rest);
      posStart := p + |d|;
      res := res + [token];
      posEnd := FindFrom(s, d, posStart);
    }
    res := res + [s[posStart..]];
    SplitFromSuffix(s, d, 0);
    assert s[0..] == s;
  }

  lemma {:induction false} JoinedSnoc(v: seq<string>, x: string, d: string)
    requires |v| >= 1
    ensures Joined(v + [x], d) == Joined(v, d) + d + x
    decreases |v|
  {
    if |v| == 1 {
      assert (v + [x])[1..] == [x];
    } else {
      assert (v + [x])[1..] == v[1..] + [x];
      JoinedSnoc(v[1..], x, d);
    }
  }

  /** `join` as the source writes it: the first element, then delimiter and element for each further one. */
  method Join(v: seq<string>, d: string) returns (res: string)
    ensures res == Joined(v, d)
  {
    res := "";
    if |v| > 0 {
      res := v[0];
      var i := 1;
      while i < |v|
        invariant 1 <= i <= |v|
        invariant res == Joined(v[..i], d)
      {
        assert v[..i + 1] == v[..i] + [v[i]];
        JoinedSnoc(v[..i], v[i], d);
        res := res + d + v[i];
        i := i + 1;
      }
      assert v[..i] == v;
    }
  }

  /** `join(split(s, d), d) == s` for every non-empty delimiter. */
  lemma {:induction false} JoinSplit(s: string, d: string)
    requires |d| > 0
    ensures Joined(SplitTokens(s, d), d) == s
    decreases |s|
  {
    FindFromSpec(s, d, 0);
    match FindFrom(s, d, 0)
    case None =>
    case Some(p) =>
      var rest := SplitTokens(s[p + |d|..], d);
      assert SplitTokens(s, d) == [s[..p]] + rest;
      assert ([s[..p]] + rest)[1..] == rest;
      JoinSplit(s[p + |d|..], d);
      assert s == s[..p] + s[p..p + |d|] + s[p + |d|..];
  }

  /** A one-character delimiter occurs exactly where that character stands. */
  lemma OccursSingle(s: string, c: char, j: nat)
    ensures OccursAt(s, [c], j) <==> j < |s| && s[j] == c
  {
    if j < |s| {
      assert s[j..j + 1] == [s[j]];
    }
  }

  lemma NoCharNoOccurrence(s: string, c: char)
    requires c !in s
    ensures NoneBetween(s, [c], 0, |s| + 1)
  {
    forall j | 0 <= j < |s| + 1 ensures !OccursAt(s, [c], j) {
      OccursSingle(s, c, j);
    }
  }

  /** The tokens of a split on one character do not hold that character. */
  lemma TokensAvoidChar(s: string, c: char)
    ensures forall i :: 0 <= i < |SplitTokens(s, [c])| ==> c !in SplitTokens(s, [c])[i]
  {
    TokensAvoidDelimiter(s, [c]);
    forall i | 0 <= i < |SplitTokens(s, [c])| ensures c !in SplitTokens(s, [c])[i] {
      NotContainsSingle(SplitTokens(s, [c])[i], c);
    }
  }

  /** A text without the one-character delimiter does not contain it. */
  lemma NotContainsSingle(t: string, c: char)
    requires !Contains(t, [c])
    ensures c !in t
  {
    if c in t {
      var j :| 0 <= j < |t| && t[j] == c;
      OccursSingle(t, c, j);
    }
  }

  /** Splitting a text with no delimiter gives the text itself. */
  lemma SplitNoDelimiter(s: string, c: char)
    requires c !in s
    ensures SplitTokens(s, [c]) == [s]
  {
    NoCharNoOccurrence(s, c);
    FindFromSpec(s, [c], 0);
    assert FindFrom(s, [c], 0).None?;
  }

  /** Splitting `x + c + rest` where `x` holds no `c` peels off `x` as the first token. */
  lemma SplitCons(x: string, c: char, rest: string)
    requires c !in x
    ensures SplitTokens(x + [c] + rest, [c]) == [x] + SplitTokens(rest, [c])
  {
    var s := x + [c] + rest;
    OccursSingle(s, c, |x|);
    forall j | 0 <= j < |x| ensures !OccursAt(s, [c], j) {
      OccursSingle(s, c, j);
      assert s[j] == x[j];
    }
    FindFromSpec(s, [c], 0);
    assert FindFrom(s, [c], 0) == Some(|x|);
    assert s[..|x|] == x;
    assert s[|x| + 1..] == rest;
  }

  /** `split(join(v, c), c) == v` when `v` is non-empty and no element holds the delimiter character. */
  lemma {:induction false} SplitJoin(v: seq<string>, c: char)
    requires |v| >= 1
    requires forall i :: 0 <= i < |v| ==> c !in v[i]
    ensures SplitTokens(Joined(v, [c]), [c]) == v
    decreases |v|
  {
    if |v| == 1 {
      SplitNoDelimiter(v[0], c);
    } else {
      SplitCons(v[0], c, Joined(v[1..], [c]));
      SplitJoin(v[1..], c);
    }
  }

  /** `join([])` is empty while `split("")` is one empty token: the round trip needs a non-empty vector. */
  lemma JoinSplitEmptyAsymmetry()
    ensures Joined([], ",") == ""
    ensures SplitTokens("", ",") == [""]
  {
    SplitNoDelimiter("", ',');
  }

  /** A character that is neither in any element nor in the delimiter is not in the join. */
  lemma {:induction false} NoCharInJoined(v: seq<string>, d: string, c: char)
    requires c !in d
    requires forall i :: 0 <= i < |v| ==> c !in v[i]
    ensures c !in Joined(v, d)
    decreases |v|
  {
    if |v| > 1 {
      NoCharInJoined(v[1..], d, c);
    }
  }

  /** The tokens of a split hold only characters of the split text. */
  lemma {:induction false} TokensFreeOf(s: string, d: string, c: char)
    requires |d| > 0 && c !in s
    ensures forall i :: 0 <= i < |SplitTokens(s, d)| ==> c !in SplitTokens(s, d)[i]
    decreases |s|
  {
    match FindFrom(s, d, 0)
    case None =>
    case Some(p) =>
      assert c !in s[..p];
      assert c !in s[p + |d|..];
      TokensFreeOf(s[p + |d|..], d, c);
  }

  /** The length of `join(v, d)`: element lengths plus one delimiter between each pair. */
  lemma {:induction false} JoinedLength(v: seq<string>, d: string)
    requires |v| >= 1
    ensures |Joined(v, d)| == SumLengths(v) + (|v| - 1) * |d|
    decreases |v|
  {
    if |v| > 1 {
      JoinedLength(v[1..], d);
    }
  }

  /**
   * `replace(str, from, to)`: if `from` does not occur, false and `str` unchanged; otherwise true and
   * only the first occurrence replaced by `to`. The in-out `str` is modelled as input and result.
   */
  method Replace(str: string, from: string, to: string) returns (ok: bool, res: string)
    ensures !ok <==> NoneBetween(str, from, 0, |str| + 1)
    ensures !ok ==> res == str
    ensures ok ==> exists p :: 0 <= p <= |str| && OccursAt(str, from, p) && NoneBetween(str, from, 0, p)
                              && res == str[..p] + to + str[p + |from|..]
  {
    var startPos := FindFrom(str, from, 0);
    FindFromSpec(str, from, 0);
    if startPos.None? {
      return false, str;
    }
    var p := startPos.value;
    res := str[..p] + to + str[p + |from|..];
    ok := true;
  }

  /** `find_last_of(c)`. */
  function LastIndexOf(s: string, c: char): (r: Option<nat>)
    ensures r.Some? ==> r.value < |s| && s[r.value] == c && forall j :: r.value < j < |s| ==> s[j] != c
    ensures r.None? ==> c !in s
    decreases |s|
  {
    if |s| == 0 then None
    else if s[|s| - 1] == c then Some(|s| - 1)
    else
      var r := LastIndexOf(s[..|s| - 1], c);
      assert forall j :: 0 <= j < |s| - 1 ==> s[..|s| - 1][j] == s[j];
      r
  }

  /**
   * `get_new_file_name(name, suffix)`: the suffix goes immediately before the last '.', keeping the
   * extension; with no '.', it is appended.
   */
  function GetNewFileName(fileName: string, suffix: string): (r: string)
    ensures '.' !in fileName ==> r == fileName + suffix
    ensures '.' in fileName ==>
      exists k :: 0 <= k < |fileName| && fileName[k] == '.' && (forall j :: k < j < |fileName| ==> fileName[j] != '.')
                  && r == fileName[..k] + suffix + fileName[k..]
  {
    match LastIndexOf(fileName, '.')
    case Some(lastDot) => fileName[..lastDot] + suffix + fileName[lastDot..]
    case None => fileName + suffix
  }
}
