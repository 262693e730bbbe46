/** Python's string operations as the generator uses them: `str.replace`
    (left to right, non-overlapping, inserted text never rescanned), with
    `str.find`, `str.split` and `str.join` as its independent reference, and
    `str(n)` for a non-negative integer. */
module Text {

  /** `pat` occurs in `s` starting at position `i`. */
  predicate OccursAt(s: string, pat: string, i: int) {
    0 <= i && i + |pat| <= |s| && s[i..i + |pat|] == pat
  }

  /** `pat in s` in Python. */
  predicate Contains(s: string, pat: string) {
    exists i :: 0 <= i <= |s| - |pat| && OccursAt(s, pat, i)
  }

  lemma OccursAtTail(s: string, pat: string, i: int)
    requires |s| > 0 && i >= 0
    ensures OccursAt(s, pat, i + 1) <==> OccursAt(s[1..], pat, i)
  {
    if 0 <= i && i + 1 + |pat| <= |s| {
      assert s[1..][i..i + |pat|] == s[i + 1..i + 1 + |pat|];
    }
  }

  lemma OccursAtPrefix(s: string, pat: string, n: nat, i: int)
    requires n <= |s|
    requires OccursAt(s[..n], pat, i)
    ensures OccursAt(s, pat, i)
  {
    assert s[..n][i..i + |pat|] == s[i..i + |pat|];
  }

  /** `s.find(pat)`: the first position where `pat` occurs, or -1. */
  function Find(s: string, pat: string): (r: int)
    requires |pat| > 0
    ensures r == -1 || 0 <= r <= |s| - |pat|
    decreases |s|
  {
    if |s| < |pat| then -1
    else if s[..|pat|] == pat then 0
    else
      var k := Find(s[1..], pat);
      if k == -1 then -1 else k + 1
  }

  /** `find` answers -1 exactly when `pat` does not occur, and otherwise a
      position where it occurs with no occurrence before it. */
  lemma {:induction false} FindSpec(s: string, pat: string)
    requires |pat| > 0
    ensures Find(s, pat) == -1 <==> !Contains(s, pat)
    ensures Find(s, pat) != -1 ==> OccursAt(s, pat, Find(s, pat))
    ensures forall i :: 0 <= i < Find(s, pat) ==> !OccursAt(s, pat, i)
    decreases |s|
  {
    if |s| < |pat| {
    } else if s[..|pat|] == pat {
      assert OccursAt(s, pat, 0);
    } else {
      var k := Find(s[1..], pat);
      FindSpec(s[1..], pat);
      assert !OccursAt(s, pat, 0);
      ContainsSkip(s, pat);
      if k != -1 {
        EarlierSkip(s, pat, k);
        OccursAtTail(s, pat, k);
      }
    }
  }

  /** Where `pat` does not start `s`, it occurs in `s` exactly when it occurs
      after the first character. */
  lemma ContainsSkip(s: string, pat: string)
    requires |s| >= 1 && !OccursAt(s, pat, 0)
    ensures Contains(s, pat) <==> Contains(s[1..], pat)
  {
    if Contains(s, pat) {
      var i :| 0 <= i <= |s| - |pat| && OccursAt(s, pat, i);
      OccursAtTail(s, pat, i - 1);
    }
    if Contains(s[1..], pat) {
      var i :| 0 <= i <= |s[1..]| - |pat| && OccursAt(s[1..], pat, i);
      OccursAtTail(s, pat, i);
    }
  }

  /** No occurrence before `k` after the first character, and none at the
      start, means none before `k + 1` in the whole string. */
  lemma EarlierSkip(s: string, pat: string, k: nat)
    requires |s| >= 1 && !OccursAt(s, pat, 0)
    requires forall i :: 0 <= i < k ==> !OccursAt(s[1..], pat, i)
    ensures forall i :: 0 <= i < k + 1 ==> !OccursAt(s, pat, i)
  {
    forall i | 0 < i < k + 1 ensures !OccursAt(s, pat, i) {
      OccursAtTail(s, pat, i - 1);
    }
  }

  /** `s.split(sep)`: the pieces between the non-overlapping occurrences of
      `sep`, found left to right. */
  function Split(s: string, sep: string): (parts: seq<string>)
    requires |sep| > 0
    ensures |parts| >= 1
    decreases |s|
  {
    var i := Find(s, sep);
    if i == -1 then [s] else [s[..i]] + Split(s[i + |sep|..], sep)
  }

  /** No piece of a split contains the separator. */
  lemma {:induction false} SplitPiecesClean(s: string, sep: string)
    requires |sep| > 0
    ensures forall k :: 0 <= k < |Split(s, sep)| ==> !Contains(Split(s, sep)[k], sep)
    decreases |s|
  {
    var i := Find(s, sep);
    FindSpec(s, sep);
    if i == -1 {
      SplitNone(s, sep);
    } else {
      var rest := s[i + |sep|..];
      SplitPiecesClean(rest, sep);
      forall j | 0 <= j <= i - |sep| ensures !OccursAt(s[..i], sep, j) {
        if OccursAt(s[..i], sep, j) { OccursAtPrefix(s, sep, i, j); }
      }
      SplitAt(s, sep, i);
      var parts := Split(s, sep);
      forall k | 0 < k < |parts| ensures parts[k] == Split(rest, sep)[k - 1] {
      }
    }
  }

  /** `sep.join(parts)`. */
  function Join(parts: seq<string>, sep: string): string
    decreases |parts|
  {
    if parts == [] then ""
    else if |parts| == 1 then parts[0]
    else parts[0] + sep + Join(parts[1..], sep)
  }

  /** `s.replace(pat, rep)` for a non-empty `pat`: scanning left to right,
      each occurrence is replaced and scanning resumes after it, so text that
      `rep` brings in is never looked at again. */
  function Replace(s: string, pat: string, rep: string): (r: string)
    requires |pat| > 0
    ensures |rep| == |pat| ==> |r| == |s|
    decreases |s|
  {
    if |s| < |pat| then s
    else if s[..|pat|] == pat then rep + Replace(s[|pat|..], pat, rep)
    else [s[0]] + Replace(s[1..], pat, rep)
  }

  /** Joining a piece in front of at least one more puts the separator
      between them. */
  lemma JoinCons(part: string, parts: seq<string>, sep: string)
    requires |parts| >= 1
    ensures Join([part] + parts, sep) == part + sep + Join(parts, sep)
  {
    assert ([part] + parts)[1..] == parts;
  }

  lemma Reassemble(s: string, i: nat, n: nat)
    requires i + n <= |s|
    ensures s[..i] + s[i..i + n] + s[i + n..] == s
  {
  }

  /** Splitting and joining again with the same separator gives the string back. */
  lemma {:induction false} JoinSplit(s: string, sep: string)
    requires |sep| > 0
    ensures Join(Split(s, sep), sep) == s
    decreases |s|
  {
    var i := Find(s, sep);
    if i == -1 {
      SplitNone(s, sep);
    } else {
      SplitAt(s, sep, i);
      FindSpec(s, sep);
      var rest := s[i + |sep|..];
      JoinSplit(rest, sep);
      JoinCons(s[..i], Split(rest, sep), sep);
      Reassemble(s, i, |sep|);
    }
  }

  /** Where `pat` does not start the string, `find` looks one further on. */
  lemma FindSkip(s: string, pat: string)
    requires |pat| > 0 && |s| >= |pat| && s[..|pat|] != pat
    ensures var k := Find(s[1..], pat); Find(s, pat) == if k == -1 then -1 else k + 1
  {
  }

  /** Where `sep` does not occur, `split` gives the whole string. */
  lemma SplitNone(s: string, sep: string)
    requires |sep| > 0 && Find(s, sep) == -1
    ensures Split(s, sep) == [s]
  {
  }

  /** Where `sep` first occurs at `i`, `split` cuts there. */
  lemma SplitAt(s: string, sep: string, i: nat)
    requires |sep| > 0 && Find(s, sep) == i
    ensures i + |sep| <= |s|
    ensures Split(s, sep) == [s[..i]] + Split(s[i + |sep|..], sep)
  {
    var rest := s[i + |sep|..];
    var tail := Split(rest, sep);
    assert Split(s, sep) == [s[..i]] + tail;
  }

  /** Where `pat` does not start the string, `split` keeps the first
      character at the head of the first piece. */
  lemma SplitSkip(s: string, pat: string)
    requires |pat| > 0 && |s| >= |pat| && s[..|pat|] != pat
    ensures var t := Split(s[1..], pat); Split(s, pat) == [[s[0]] + t[0]] + t[1..]
  {
    var k := Find(s[1..], pat);
    FindSkip(s, pat);
    if k == -1 {
      SplitSkipNone(s, pat);
    } else {
      SplitSkipAt(s, pat, k);
    }
  }

  lemma SplitSkipNone(s: string, pat: string)
    requires |pat| > 0 && |s| > 0 && Find(s, pat) == -1 && Find(s[1..], pat) == -1
    ensures var t := Split(s[1..], pat); Split(s, pat) == [[s[0]] + t[0]] + t[1..]
  {
    SplitNone(s, pat);
    SplitNone(s[1..], pat);
    assert s == [s[0]] + s[1..];
  }

  lemma SplitSkipAt(s: string, pat: string, k: int)
    requires |pat| > 0 && |s| > 0 && k != -1
    requires Find(s, pat) == k + 1 && Find(s[1..], pat) == k
    ensures var t := Split(s[1..], pat); Split(s, pat) == [[s[0]] + t[0]] + t[1..]
  {
    var t := s[1..];
    var rest := t[k + |pat|..];
    assert s[k + 1 + |pat|..] == rest;
    assert s[..k + 1] == [s[0]] + t[..k];
    SplitAt(s, pat, k + 1);
    SplitAt(t, pat, k);
    var pieces := Split(rest, pat);
    assert Split(s, pat) == [[s[0]] + t[..k]] + pieces;
    ConsPieces(s[0], t[..k], pieces);
  }

  lemma ConsPieces(c: char, head: string, pieces: seq<string>)
    ensures var t := [head] + pieces; [[c] + head] + pieces == [[c] + t[0]] + t[1..]
  {
    assert ([head] + pieces)[1..] == pieces;
  }

  lemma JoinHead(c: char, parts: seq<string>, sep: string)
    requires |parts| >= 1
    ensures Join([[c] + parts[0]] + parts[1..], sep) == [c] + Join(parts, sep)
  {
    if |parts| > 1 {
      JoinCons([c] + parts[0], parts[1..], sep);
      JoinCons(parts[0], parts[1..], sep);
      assert parts == [parts[0]] + parts[1..];
    }
  }

  /** `replace` agrees with its reference: split at the separator, join with
      the replacement. */
  lemma {:induction false} ReplaceIsSplitJoin(s: string, pat: string, rep: string)
    requires |pat| > 0
    ensures Replace(s, pat, rep) == Join(Split(s, pat), rep)
    decreases |s|
  {
    if |s| < |pat| {
      SplitNone(s, pat);
    } else if s[..|pat|] == pat {
      ReplaceIsSplitJoin(s[|pat|..], pat, rep);
      SplitJoinHit(s, pat, rep);
    } else {
      ReplaceIsSplitJoin(s[1..], pat, rep);
      SplitJoinSkip(s, pat, rep);
    }
  }

  /** The step of ReplaceIsSplitJoin where `pat` starts the string. */
  lemma SplitJoinHit(s: string, pat: string, rep: string)
    requires |pat| > 0 && |s| >= |pat| && s[..|pat|] == pat
    requires Replace(s[|pat|..], pat, rep) == Join(Split(s[|pat|..], pat), rep)
    ensures Replace(s, pat, rep) == Join(Split(s, pat), rep)
  {
    assert Find(s, pat) == 0;
    ReplaceHit(s, pat, rep);
    SplitAt(s, pat, 0);
    JoinCons(s[..0], Split(s[|pat|..], pat), rep);
  }

  /** The step of ReplaceIsSplitJoin where `pat` does not start the string. */
  lemma SplitJoinSkip(s: string, pat: string, rep: string)
    requires |pat| > 0 && |s| >= |pat| && s[..|pat|] != pat
    requires Replace(s[1..], pat, rep) == Join(Split(s[1..], pat), rep)
    ensures Replace(s, pat, rep) == Join(Split(s, pat), rep)
  {
    ReplaceSkip(s, pat, rep);
    SplitSkip(s, pat);
    JoinHead(s[0], Split(s[1..], pat), rep);
  }

  /** A string in which `pat` does not occur comes back unchanged. */
  lemma ReplaceAbsent(s: string, pat: string, rep: string)
    requires |pat| > 0
    requires !Contains(s, pat)
    ensures Replace(s, pat, rep) == s
  {
    ReplaceIsSplitJoin(s, pat, rep);
    FindSpec(s, pat);
    SplitNone(s, pat);
  }

  /** The whole string as the pattern is replaced once. */
  lemma ReplaceWhole(s: string, rep: string)
    requires |s| > 0
    ensures Replace(s, s, rep) == rep
  {
    assert s[..|s|] == s && s[|s|..] == [];
  }

  /** Where `pat` does not start the string, its first character is kept. */
  lemma ReplaceSkip(s: string, pat: string, rep: string)
    requires |pat| > 0 && |s| >= |pat| && s[..|pat|] != pat
    ensures Replace(s, pat, rep) == [s[0]] + Replace(s[1..], pat, rep)
  {
  }

  /** Where `pat` starts the string, it is replaced. */
  lemma ReplaceHit(s: string, pat: string, rep: string)
    requires |pat| > 0 && |s| >= |pat| && s[..|pat|] == pat
    ensures Replace(s, pat, rep) == s[..0] + rep + Replace(s[|pat|..], pat, rep)
  {
    assert s[..0] + rep == rep;
  }

  /** Everything before the first occurrence is kept, the occurrence is
      replaced, and replacement continues after it. */
  lemma ReplaceAtFirst(s: string, pat: string, rep: string, i: nat)
    requires |pat| > 0
    requires OccursAt(s, pat, i)
    requires forall j :: 0 <= j < i ==> !OccursAt(s, pat, j)
    ensures Replace(s, pat, rep) == s[..i] + rep + Replace(s[i + |pat|..], pat, rep)
  {
    FirstIsFind(s, pat, i);
    var rest := s[i + |pat|..];
    ReplaceIsSplitJoin(s, pat, rep);
    ReplaceIsSplitJoin(rest, pat, rep);
    SplitAt(s, pat, i);
    JoinCons(s[..i], Split(rest, pat), rep);
  }

  /** The first occurrence is the one `find` reports. */
  lemma FirstIsFind(s: string, pat: string, i: nat)
    requires |pat| > 0
    requires OccursAt(s, pat, i)
    requires forall j :: 0 <= j < i ==> !OccursAt(s, pat, j)
    ensures Find(s, pat) == i
  {
    FindSpec(s, pat);
    assert Contains(s, pat);
  }

  /** A prefix holding no first character of `pat`, then `pat` itself:
      the occurrence at the end is the one replaced. */
  lemma ReplaceAfterClean(pre: string, pat: string, rep: string)
    requires |pat| > 0
    requires forall k :: 0 <= k < |pre| ==> pre[k] != pat[0]
    ensures Replace(pre + pat, pat, rep) == pre + rep
  {
    var t := pre + pat;
    assert t[|pre|..|pre| + |pat|] == pat;
    forall j | 0 <= j < |pre| ensures !OccursAt(t, pat, j) {
      assert t[j..j + |pat|][0] == pre[j];
    }
    ReplaceAtFirst(t, pat, rep, |pre|);
    assert t[..|pre|] == pre && t[|pre| + |pat|..] == [];
  }

  /** A string shorter than `pat` cannot contain it. */
  lemma ShortAbsent(s: string, pat: string)
    requires |s| < |pat|
    ensures !Contains(s, pat)
  {
  }

  /** A string without the first character of `pat` cannot contain it. */
  lemma AbsentWithoutHead(s: string, pat: string)
    requires |pat| > 0
    requires forall k :: 0 <= k < |s| ==> s[k] != pat[0]
    ensures !Contains(s, pat)
  {
    forall i | 0 <= i <= |s| - |pat| ensures !OccursAt(s, pat, i) {
      assert s[i..i + |pat|][0] != pat[0];
    }
  }

  // ---- `str(n)` for non-negative integers ----

  predicate IsDigit(c: char) {
    '0' <= c <= '9'
  }

  function DigitChar(d: nat): (c: char)
    requires d < 10
  {
    ('0' as int + d) as char
  }

  function DigitValue(c: char): nat
    requires IsDigit(c)
  {
    c as int - '0' as int
  }

  /** The decimal form of `n`: digits only, no leading zero. */
  function Decimal(n: nat): (s: string)
    ensures |s| >= 1
    ensures forall k :: 0 <= k < |s| ==> IsDigit(s[k])
    ensures |s| > 1 ==> s[0] != '0'
    ensures n < 10 <==> |s| == 1
    decreases n
  {
    if n < 10 then [DigitChar(n)] else Decimal(n / 10) + [DigitChar(n % 10)]
  }

  /** The number a string of digits denotes. */
  function DecimalValue(s: string): nat
    requires forall k :: 0 <= k < |s| ==> IsDigit(s[k])
    decreases |s|
  {
    if s == [] then 0 else DecimalValue(s[..|s| - 1]) * 10 + DigitValue(s[|s| - 1])
  }

  /** Reading the decimal form back gives the number. */
  lemma {:induction false} DecimalRoundTrip(n: nat)
    ensures DecimalValue(Decimal(n)) == n
    decreases n
  {
    if n >= 10 {
      DecimalRoundTrip(n / 10);
      var s := Decimal(n);
      assert s[..|s| - 1] == Decimal(n / 10);
    }
  }

  /** Numbers up to 1000 take at most four digits. */
  lemma {:induction false} DecimalLength(n: nat)
    requires n <= 1000
    ensures |Decimal(n)| <= 4
  {
    if n >= 10 {
      if n / 10 >= 10 {
        assert |Decimal(n / 10 / 10)| == 1 || n / 10 / 10 >= 10;
      }
    }
  }
}
