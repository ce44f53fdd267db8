/**
 The JavaScript string and regular-expression operations that the middleware
 edit planner applies to a single line of text, with the semantics the planner relies on:
 `String.prototype.replace` with a string pattern, counting the matches of a
 literal global pattern, `String.prototype.repeat`, and the two inline global
 patterns `/[ ]*\}/g` and `/[ ]*}[ ]*\)/g`.
 */
module StringOps {

  /** Every character of `s` is a space. */
  predicate AllSpaces(s: string) {
    forall i :: 0 <= i < |s| ==> s[i] == ' '
  }

  /** `pat` occurs in `s` starting at index `i`. */
  predicate OccursAt(s: string, pat: string, i: nat) {
    i + |pat| <= |s| && s[i..i + |pat|] == pat
  }

  /** `i` is the leftmost index at which `pat` occurs in `s`. */
  ghost predicate FirstOccurrence(s: string, pat: string, i: nat) {
    OccursAt(s, pat, i) && forall j: nat :: j < i ==> !OccursAt(s, pat, j)
  }

  /** `pat` occurs nowhere in `s`. */
  ghost predicate Absent(s: string, pat: string) {
    forall j: nat :: !OccursAt(s, pat, j)
  }

  lemma OccursAtTail(s: string, pat: string, j: nat)
    requires |s| > 0
    ensures OccursAt(s[1..], pat, j) <==> OccursAt(s, pat, j + 1)
  {
  }

  // ---------------------------------------------------------------------------
  // `s.replace(pat, rep)` with a string pattern
  // ---------------------------------------------------------------------------

  /**
   `s.replace(pat, rep)` for a string `pat`: the leftmost occurrence of `pat`
   is replaced by `rep`, and `s` is returned unchanged when `pat` does not occur.
   The replacement text is taken literally.
   */
  function ReplaceFirst(s: string, pat: string, rep: string): string
    decreases |s|
  {
    if OccursAt(s, pat, 0) then rep + s[|pat|..]
    else if |s| == 0 then s
    else [s[0]] + ReplaceFirst(s[1..], pat, rep)
  }

  /** Replacing a pattern that does not occur changes nothing. */
  lemma {:induction false} ReplaceFirstAbsent(s: string, pat: string, rep: string)
    requires Absent(s, pat)
    ensures ReplaceFirst(s, pat, rep) == s
    decreases |s|
  {
    assert !OccursAt(s, pat, 0);
    if |s| > 0 {
      forall j: nat
        ensures !OccursAt(s[1..], pat, j)
      {
        OccursAtTail(s, pat, j);
        assert !OccursAt(s, pat, j + 1);
      }
      ReplaceFirstAbsent(s[1..], pat, rep);
      assert [s[0]] + s[1..] == s;
    }
  }

  /**
   When the leftmost occurrence of `pat` starts at `i`, exactly that span is
   replaced: the text before it and the text after it are kept.
   */
  lemma {:induction false} ReplaceFirstAt(s: string, pat: string, rep: string, i: nat)
    requires FirstOccurrence(s, pat, i)
    ensures ReplaceFirst(s, pat, rep) == s[..i] + rep + s[i + |pat|..]
    decreases i
  {
    if i == 0 {
      assert s[..0] == [];
    } else {
      var t := s[1..];
      assert !OccursAt(s, pat, 0);
      OccursAtTail(s, pat, i - 1);
      forall j: nat | j < i - 1
        ensures !OccursAt(t, pat, j)
      {
        OccursAtTail(s, pat, j);
        assert !OccursAt(s, pat, j + 1);
      }
      assert FirstOccurrence(t, pat, i - 1);
      ReplaceFirstAt(t, pat, rep, i - 1);
      assert ReplaceFirst(s, pat, rep) == [s[0]] + ReplaceFirst(t, pat, rep);
      assert t[..i - 1] == s[1..i];
      assert t[i - 1 + |pat|..] == s[i + |pat|..];
      assert [s[0]] + s[1..i] == s[..i];
    }
  }

  /** The first occurrence of `pat` in `pre + pat + post`, found after `pre`, is replaced. */
  lemma ReplaceFirstSplit(pre: string, pat: string, post: string, rep: string)
    requires forall j: nat :: j < |pre| ==> !OccursAt(pre + pat + post, pat, j)
    ensures ReplaceFirst(pre + pat + post, pat, rep) == pre + rep + post
  {
    var s := pre + pat + post;
    assert s[|pre|..|pre| + |pat|] == pat;
    assert FirstOccurrence(s, pat, |pre|);
    ReplaceFirstAt(s, pat, rep, |pre|);
    assert s[..|pre|] == pre;
    assert s[|pre| + |pat|..] == post;
  }

  // ---------------------------------------------------------------------------
  // Counting the matches of `new RegExp(pat, 'g')` for a literal `pat`
  // ---------------------------------------------------------------------------

  /**
   The length of `(s.match(new RegExp(pat, 'g')) || [])` when `pat` has no
   regular-expression metacharacters: matches are found left to right and do
   not overlap; the empty pattern matches at each of the `|s| + 1` positions.
   */
  function CountMatches(s: string, pat: string): nat
    decreases |s|
  {
    if |pat| == 0 then |s| + 1
    else if OccursAt(s, pat, 0) then 1 + CountMatches(s[|pat|..], pat)
    else if |s| == 0 then 0
    else CountMatches(s[1..], pat)
  }

  /** `s.repeat(n)`: `n` copies of `s`, one after another. */
  function Repeat(s: string, n: nat): (r: string)
    ensures |r| == n * |s|
  {
    if n == 0 then [] else s + Repeat(s, n - 1)
  }

  /** A pattern that does not occur has no matches. */
  lemma {:induction false} CountMatchesAbsent(s: string, pat: string)
    requires |pat| > 0
    requires Absent(s, pat)
    ensures CountMatches(s, pat) == 0
    decreases |s|
  {
    assert !OccursAt(s, pat, 0);
    if |s| > 0 {
      forall j: nat
        ensures !OccursAt(s[1..], pat, j)
      {
        OccursAtTail(s, pat, j);
        assert !OccursAt(s, pat, j + 1);
      }
      CountMatchesAbsent(s[1..], pat);
    }
  }

  /**
   Counting a non-empty pattern in `n` copies of itself followed by `rest`
   finds the `n` copies and then the matches in `rest`: counting undoes `Repeat`.
   */
  lemma {:induction false} CountMatchesRepeat(pat: string, n: nat, rest: string)
    requires |pat| > 0
    ensures CountMatches(Repeat(pat, n) + rest, pat) == n + CountMatches(rest, pat)
    decreases n
  {
    if n > 0 {
      var s := Repeat(pat, n) + rest;
      assert s == pat + (Repeat(pat, n - 1) + rest);
      assert s[..|pat|] == pat;
      assert s[|pat|..] == Repeat(pat, n - 1) + rest;
      CountMatchesRepeat(pat, n - 1, rest);
    } else {
      assert Repeat(pat, n) + rest == rest;
    }
  }

  // ---------------------------------------------------------------------------
  // Upper-casing the first character
  // ---------------------------------------------------------------------------

  /** Upper-case form of an ASCII letter; every other character is kept. */
  function ToUpper(c: char): (u: char)
    ensures 'a' <= c <= 'z' ==> 'A' <= u <= 'Z' && u as int - 'A' as int == c as int - 'a' as int
    ensures !('a' <= c <= 'z') ==> u == c
  {
    if 'a' <= c <= 'z' then (c as int - 'a' as int + 'A' as int) as char else c
  }

  /** `s.charAt(0).toUpperCase() + s.slice(1)`. */
  function UpperFirst(s: string): (r: string)
    ensures |r| == |s|
    ensures |s| > 0 ==> r[0] == ToUpper(s[0]) && r[1..] == s[1..]
  {
    if |s| == 0 then s else [ToUpper(s[0])] + s[1..]
  }

  // ---------------------------------------------------------------------------
  // The global pattern `/[ ]*\}/g`
  // ---------------------------------------------------------------------------

  /**
   `s.replace(/[ ]*\}/g, rep)`: every `}`, together with the run of spaces
   directly before it, is replaced by `rep`; the rest of `s` is kept.
   */
  function ReplaceSpacedBraces(s: string, rep: string): string {
    BracesFrom(s, rep, "")
  }

  /**
   The left-to-right scan behind `ReplaceSpacedBraces`: `pending` holds the
   spaces read since the last other character. They are dropped when a `}`
   follows (they belong to its match) and kept otherwise.
   */
  function BracesFrom(s: string, rep: string, pending: string): string
    decreases |s|
  {
    if |s| == 0 then pending
    else if s[0] == ' ' then BracesFrom(s[1..], rep, pending + " ")
    else if s[0] == '}' then rep + BracesFrom(s[1..], rep, "")
    else pending + [s[0]] + BracesFrom(s[1..], rep, "")
  }

  /** Text without a closing brace is left as it is. */
  lemma {:induction false} BracesFromNoBrace(s: string, rep: string, pending: string)
    requires '}' !in s
    ensures BracesFrom(s, rep, pending) == pending + s
    decreases |s|
  {
    if |s| > 0 {
      assert forall c :: c in s[1..] ==> c in s;
      assert s[0] in s;
      if s[0] == ' ' {
        BracesFromNoBrace(s[1..], rep, pending + " ");
        assert pending + " " + s[1..] == pending + s;
      } else {
        BracesFromNoBrace(s[1..], rep, "");
        assert pending + [s[0]] + ("" + s[1..]) == pending + s;
      }
    }
  }

  /** Text without a closing brace is left as it is. */
  lemma ReplaceSpacedBracesNoBrace(s: string, rep: string)
    requires '}' !in s
    ensures ReplaceSpacedBraces(s, rep) == s
  {
    BracesFromNoBrace(s, rep, "");
    assert "" + s == s;
  }

  /** Brace-free text that does not end in a space is kept, with the spaces pending before it. */
  lemma {:induction false} BracesFromKeeps(a: string, t: string, rep: string, pending: string)
    requires '}' !in a
    requires |a| > 0 && a[|a| - 1] != ' '
    ensures BracesFrom(a + t, rep, pending) == pending + a + BracesFrom(t, rep, "")
    decreases |a|
  {
    var s := a + t;
    assert s[0] == a[0] && s[1..] == a[1..] + t;
    assert a[0] in a;
    assert forall c :: c in a[1..] ==> c in a;
    if a[0] == ' ' {
      BracesFromKeeps(a[1..], t, rep, pending + " ");
      assert pending + " " + a[1..] == pending + a;
    } else if |a| == 1 {
      assert a[1..] + t == t;
      assert pending + [a[0]] == pending + a;
    } else {
      BracesFromKeeps(a[1..], t, rep, "");
      assert pending + [a[0]] + ("" + a[1..]) == pending + a;
    }
  }

  /** A `}` after only spaces is replaced together with those spaces. */
  lemma {:induction false} BracesFromMatch(sp: string, b: string, rep: string, pending: string)
    requires AllSpaces(sp)
    ensures BracesFrom(sp + "}" + b, rep, pending) == rep + BracesFrom(b, rep, "")
    decreases |sp|
  {
    var s := sp + "}" + b;
    if |sp| > 0 {
      assert s[0] == ' ' && s[1..] == sp[1..] + "}" + b;
      BracesFromMatch(sp[1..], b, rep, pending + " ");
    } else {
      assert s[0] == '}' && s[1..] == b;
    }
  }

  /**
   The first `}` of `a + sp + "}" + b` is found with its spaces `sp`: it is
   replaced by `rep`, the brace-free text `a` before it is kept, and the
   rewriting goes on in `b`.
   */
  lemma ReplaceSpacedBracesSplit(a: string, sp: string, b: string, rep: string)
    requires '}' !in a
    requires |a| == 0 || a[|a| - 1] != ' '
    requires AllSpaces(sp)
    ensures ReplaceSpacedBraces(a + sp + "}" + b, rep) == a + rep + ReplaceSpacedBraces(b, rep)
  {
    var t := sp + "}" + b;
    BracesFromMatch(sp, b, rep, "");
    if |a| == 0 {
      assert a + sp + "}" + b == t;
    } else {
      assert a + sp + "}" + b == a + t;
      BracesFromKeeps(a, t, rep, "");
      assert "" + a == a;
    }
  }

  // ---------------------------------------------------------------------------
  // The global pattern `/[ ]*}[ ]*\)/g`
  // ---------------------------------------------------------------------------

  /** `s[p]` is `}`, `s[q]` is `)`, and only spaces lie between them. */
  predicate CallCloseAt(s: string, p: nat, q: nat)
    requires p < q < |s|
  {
    s[p] == '}' && s[q] == ')' && AllSpaces(s[p + 1..q])
  }

  /** `/[ ]*}[ ]*\)/g.test(s)`: some `}` is followed, after only spaces, by `)`. */
  predicate HasCallClose(s: string) {
    exists p, q | 0 <= p < q < |s| :: CallCloseAt(s, p, q)
  }

  /**
   Where the scan behind `ReplaceCallCloses` stands: before a `}` with the
   spaces `pending` read since the last other character, or just after a `}`
   that followed `pending`, with the spaces `trailing` read since.
   */
  datatype Scan = BeforeBrace(pending: string) | AfterBrace(pending: string, trailing: string) {

    /** The text read but not yet written out. */
    function Held(): string {
      match this
      case BeforeBrace(p) => p
      case AfterBrace(p, q) => p + "}" + q
    }
  }

  /**
   `s.replace(/[ ]*}[ ]*\)/g, rep)`: every `}` followed by optional spaces and
   `)`, together with the spaces before the `}`, is replaced by `rep`; the
   rest of `s` is kept.
   */
  function ReplaceCallCloses(s: string, rep: string): string {
    CallClosesFrom(s, rep, BeforeBrace(""))
  }

  /**
   The left-to-right scan behind `ReplaceCallCloses`. When a `}` and its
   trailing spaces are followed by anything but `)`, the match attempt fails:
   the spaces before and the `}` are written out, and the scan resumes with
   the trailing spaces, which may lead to another `}`.
   */
  function CallClosesFrom(s: string, rep: string, scan: Scan): string
    decreases |s|, if scan.AfterBrace? then 1 else 0
  {
    if |s| == 0 then scan.Held()
    else match scan
      case BeforeBrace(p) =>
        if s[0] == ' ' then CallClosesFrom(s[1..], rep, BeforeBrace(p + " "))
        else if s[0] == '}' then CallClosesFrom(s[1..], rep, AfterBrace(p, ""))
        else p + [s[0]] + CallClosesFrom(s[1..], rep, BeforeBrace(""))
      case AfterBrace(p, q) =>
        if s[0] == ' ' then CallClosesFrom(s[1..], rep, AfterBrace(p, q + " "))
        else if s[0] == ')' then rep + CallClosesFrom(s[1..], rep, BeforeBrace(""))
        else p + "}" + CallClosesFrom(s, rep, BeforeBrace(q))
  }

  /** A `}` at `p` followed by only spaces up to a `)` at `q` makes the pattern match. */
  lemma HasCallCloseAt(s: string, p: nat, q: nat)
    requires p < q < |s|
    requires s[p] == '}' && s[q] == ')' && AllSpaces(s[p + 1..q])
    ensures HasCallClose(s)
  {
    assert CallCloseAt(s, p, q);
  }

  /** A match in a suffix is a match in the whole text. */
  lemma HasCallCloseSuffix(s: string, i: nat)
    requires i <= |s|
    requires HasCallClose(s[i..])
    ensures HasCallClose(s)
  {
    var t := s[i..];
    var p, q :| 0 <= p < q < |t| && CallCloseAt(t, p, q);
    assert t[p + 1..q] == s[i + p + 1..i + q];
    HasCallCloseAt(s, i + p, i + q);
  }

  /** A match in `y` is a match in `x + y`. */
  lemma HasCallCloseAppend(x: string, y: string)
    requires HasCallClose(y)
    ensures HasCallClose(x + y)
  {
    assert (x + y)[|x|..] == y;
    HasCallCloseSuffix(x + y, |x|);
  }

  /** A `}`, spaces and a `)` in a row make the pattern match. */
  lemma HasCallCloseHeld(p: string, q: string, s: string)
    requires AllSpaces(q)
    requires |s| > 0 && s[0] == ')'
    ensures HasCallClose(p + "}" + q + s)
  {
    var whole := p + "}" + q + s;
    assert whole[|p|] == '}' && whole[|p| + 1 + |q|] == ')';
    assert whole[|p| + 1..|p| + 1 + |q|] == q;
    HasCallCloseAt(whole, |p|, |p| + 1 + |q|);
  }

  /** With no match in the held text and the rest, the scan writes both out unchanged. */
  lemma {:induction false} CallClosesFromNone(s: string, rep: string, scan: Scan)
    requires scan.AfterBrace? ==> AllSpaces(scan.trailing)
    requires !HasCallClose(scan.Held() + s)
    ensures CallClosesFrom(s, rep, scan) == scan.Held() + s
    decreases |s|, if scan.AfterBrace? then 1 else 0
  {
    if |s| > 0 {
      match scan
      case BeforeBrace(p) =>
        if s[0] == ' ' {
          assert p + " " + s[1..] == p + s;
          CallClosesFromNone(s[1..], rep, BeforeBrace(p + " "));
        } else if s[0] == '}' {
          assert p + "}" + "" + s[1..] == p + s;
          CallClosesFromNone(s[1..], rep, AfterBrace(p, ""));
        } else {
          assert p + s == (p + [s[0]]) + ("" + s[1..]);
          if HasCallClose("" + s[1..]) {
            HasCallCloseAppend(p + [s[0]], "" + s[1..]);
          }
          CallClosesFromNone(s[1..], rep, BeforeBrace(""));
        }
      case AfterBrace(p, q) =>
        if s[0] == ' ' {
          assert p + "}" + (q + " ") + s[1..] == p + "}" + q + s;
          CallClosesFromNone(s[1..], rep, AfterBrace(p, q + " "));
        } else if s[0] == ')' {
          HasCallCloseHeld(p, q, s);
          assert false;
        } else {
          assert p + "}" + q + s == (p + "}") + (q + s);
          if HasCallClose(q + s) {
            HasCallCloseAppend(p + "}", q + s);
          }
          CallClosesFromNone(s, rep, BeforeBrace(q));
          assert p + "}" + (q + s) == p + "}" + q + s;
        }
    }
  }

  /** When the pattern does not match, the replacement leaves the text as it is. */
  lemma ReplaceCallClosesNone(s: string, rep: string)
    requires !HasCallClose(s)
    ensures ReplaceCallCloses(s, rep) == s
  {
    assert BeforeBrace("").Held() + s == s;
    CallClosesFromNone(s, rep, BeforeBrace(""));
  }

  /** Text holding `}`, then only spaces, then `)` makes the pattern match. */
  lemma HasCallCloseOf(a: string, sp1: string, sp2: string, b: string)
    requires AllSpaces(sp2)
    ensures HasCallClose(a + sp1 + "}" + sp2 + ")" + b)
  {
    var s := a + sp1 + "}" + sp2 + ")" + b;
    var p := |a| + |sp1|;
    var q := p + 1 + |sp2|;
    assert s[p] == '}' && s[q] == ')';
    assert s[p + 1..q] == sp2;
    HasCallCloseAt(s, p, q);
  }

  /** The scan states that reading text can lead to: what is held back is only spaces around a `}`. */
  predicate Settled(scan: Scan) {
    match scan
    case BeforeBrace(p) => AllSpaces(p)
    case AfterBrace(p, q) => AllSpaces(p) && AllSpaces(q)
  }

  /**
   Reading a prefix `a` that, with the held text, holds no match writes out
   part of it, `emitted`, and holds back the rest in the state `next`: nothing
   is lost or rewritten. After a last character that is neither a space nor
   `}`, nothing is held; after a last `}`, only that brace and the spaces
   before it are.
   */
  lemma {:induction false} CallClosesFromPrefix(a: string, t: string, rep: string, scan: Scan)
    returns (emitted: string, next: Scan)
    requires Settled(scan)
    requires !HasCallClose(scan.Held() + a)
    ensures Settled(next)
    ensures CallClosesFrom(a + t, rep, scan) == emitted + CallClosesFrom(t, rep, next)
    ensures emitted + next.Held() == scan.Held() + a
    ensures |a| > 0 && a[|a| - 1] != ' ' && a[|a| - 1] != '}' ==> next == BeforeBrace("")
    ensures |a| > 0 && a[|a| - 1] == '}' ==> next.AfterBrace? && next.trailing == ""
    ensures |a| == 0 ==> emitted == "" && next == scan
    decreases |a|, 3
  {
    if |a| == 0 {
      assert a + t == t;
      emitted, next := "", scan;
    } else {
      match scan
      case BeforeBrace(p) =>
        emitted, next := PrefixBeforeBrace(a, t, rep, p);
      case AfterBrace(p, q) =>
        emitted, next := PrefixAfterBrace(a, t, rep, p, q);
    }
  }

  /** `CallClosesFromPrefix` from a state before any `}`. */
  lemma {:induction false} PrefixBeforeBrace(a: string, t: string, rep: string, p: string)
    returns (emitted: string, next: Scan)
    requires |a| > 0 && AllSpaces(p)
    requires !HasCallClose(p + a)
    ensures Settled(next)
    ensures CallClosesFrom(a + t, rep, BeforeBrace(p)) == emitted + CallClosesFrom(t, rep, next)
    ensures emitted + next.Held() == p + a
    ensures a[|a| - 1] != ' ' && a[|a| - 1] != '}' ==> next == BeforeBrace("")
    ensures a[|a| - 1] == '}' ==> next.AfterBrace? && next.trailing == ""
    decreases |a|, 1
  {
    if a[0] == ' ' {
      emitted, next := PrefixSpace(a, t, rep, p);
    } else if a[0] == '}' {
      emitted, next := PrefixBrace(a, t, rep, p);
    } else {
      emitted, next := PrefixOther(a, t, rep, p);
    }
  }

  /** `PrefixBeforeBrace` when `a` starts with a space, which is held back. */
  lemma {:induction false} PrefixSpace(a: string, t: string, rep: string, p: string)
    returns (emitted: string, next: Scan)
    requires |a| > 0 && a[0] == ' ' && AllSpaces(p)
    requires !HasCallClose(p + a)
    ensures Settled(next)
    ensures CallClosesFrom(a + t, rep, BeforeBrace(p)) == emitted + CallClosesFrom(t, rep, next)
    ensures emitted + next.Held() == p + a
    ensures a[|a| - 1] != ' ' && a[|a| - 1] != '}' ==> next == BeforeBrace("")
    ensures a[|a| - 1] == '}' ==> next.AfterBrace? && next.trailing == ""
    decreases |a|, 0
  {
    var rest := a[1..];
    assert (a + t)[1..] == rest + t;
    assert |rest| > 0 ==> rest[|rest| - 1] == a[|a| - 1];
    assert BeforeBrace(p + " ").Held() + rest == p + a;
    emitted, next := CallClosesFromPrefix(rest, t, rep, BeforeBrace(p + " "));
  }

  /** `PrefixBeforeBrace` when `a` starts with `}`, which is held back with the spaces before it. */
  lemma {:induction false} PrefixBrace(a: string, t: string, rep: string, p: string)
    returns (emitted: string, next: Scan)
    requires |a| > 0 && a[0] == '}' && AllSpaces(p)
    requires !HasCallClose(p + a)
    ensures Settled(next)
    ensures CallClosesFrom(a + t, rep, BeforeBrace(p)) == emitted + CallClosesFrom(t, rep, next)
    ensures emitted + next.Held() == p + a
    ensures a[|a| - 1] != ' ' && a[|a| - 1] != '}' ==> next == BeforeBrace("")
    ensures a[|a| - 1] == '}' ==> next.AfterBrace? && next.trailing == ""
    decreases |a|, 0
  {
    var rest := a[1..];
    assert (a + t)[1..] == rest + t;
    assert |rest| > 0 ==> rest[|rest| - 1] == a[|a| - 1];
    assert AfterBrace(p, "").Held() + rest == p + a;
    emitted, next := CallClosesFromPrefix(rest, t, rep, AfterBrace(p, ""));
  }

  /** Concatenation is associative. */
  lemma AppendAssoc(x: string, y: string, z: string)
    ensures x + (y + z) == x + y + z
  {
  }

  /** A character that is neither a space nor `}` is written out after the spaces held before it. */
  lemma CallClosesFromOther(s: string, rep: string, p: string)
    requires |s| > 0 && s[0] != ' ' && s[0] != '}'
    ensures CallClosesFrom(s, rep, BeforeBrace(p)) == p + [s[0]] + CallClosesFrom(s[1..], rep, BeforeBrace(""))
  {
  }

  /** `PrefixBeforeBrace` when `a` starts with another character, which is written out with the spaces before it. */
  lemma {:induction false} PrefixOther(a: string, t: string, rep: string, p: string)
    returns (emitted: string, next: Scan)
    requires |a| > 0 && a[0] != ' ' && a[0] != '}' && AllSpaces(p)
    requires !HasCallClose(p + a)
    ensures Settled(next)
    ensures CallClosesFrom(a + t, rep, BeforeBrace(p)) == emitted + CallClosesFrom(t, rep, next)
    ensures emitted + next.Held() == p + a
    ensures a[|a| - 1] != ' ' && a[|a| - 1] != '}' ==> next == BeforeBrace("")
    ensures a[|a| - 1] == '}' ==> next.AfterBrace? && next.trailing == ""
    decreases |a|, 0
  {
    var rest := a[1..];
    var head := p + [a[0]];
    assert (a + t)[1..] == rest + t;
    assert |rest| > 0 ==> rest[|rest| - 1] == a[|a| - 1];
    assert p + a == head + rest;
    if HasCallClose(rest) {
      HasCallCloseAppend(head, rest);
    }
    assert BeforeBrace("").Held() + rest == rest;
    var e;
    e, next := CallClosesFromPrefix(rest, t, rep, BeforeBrace(""));
    emitted := head + e;
    CallClosesFromOther(a + t, rep, p);
    AppendAssoc(head, e, CallClosesFrom(t, rep, next));
    AppendAssoc(head, e, next.Held());
  }

  /** `CallClosesFromPrefix` from a state just after a `}`. */
  lemma {:induction false} PrefixAfterBrace(a: string, t: string, rep: string, p: string, q: string)
    returns (emitted: string, next: Scan)
    requires |a| > 0 && AllSpaces(p) && AllSpaces(q)
    requires !HasCallClose(p + "}" + q + a)
    ensures Settled(next)
    ensures CallClosesFrom(a + t, rep, AfterBrace(p, q)) == emitted + CallClosesFrom(t, rep, next)
    ensures emitted + next.Held() == p + "}" + q + a
    ensures a[|a| - 1] != ' ' && a[|a| - 1] != '}' ==> next == BeforeBrace("")
    ensures a[|a| - 1] == '}' ==> next.AfterBrace? && next.trailing == ""
    decreases |a|, 2
  {
    var s := a + t;
    var rest := a[1..];
    assert s[0] == a[0] && s[1..] == rest + t;
    assert |rest| > 0 ==> rest[|rest| - 1] == a[|a| - 1];
    if a[0] == ' ' {
      assert AfterBrace(p, q + " ").Held() + rest == p + "}" + q + a;
      emitted, next := CallClosesFromPrefix(rest, t, rep, AfterBrace(p, q + " "));
    } else if a[0] == ')' {
      HasCallCloseHeld(p, q, a);
      assert false;
    } else {
      var head := p + "}";
      assert p + "}" + q + a == head + (q + a);
      if HasCallClose(q + a) {
        HasCallCloseAppend(head, q + a);
      }
      var e;
      e, next := PrefixBeforeBrace(a, t, rep, q);
      emitted := head + e;
      assert CallClosesFrom(s, rep, AfterBrace(p, q)) == head + CallClosesFrom(s, rep, BeforeBrace(q));
      assert head + (e + CallClosesFrom(t, rep, next)) == emitted + CallClosesFrom(t, rep, next);
      assert head + (e + next.Held()) == emitted + next.Held();
    }
  }

  /** After a `}`, spaces and a `)` complete the match, which is replaced by `rep`. */
  lemma {:induction false} CallClosesFromClose(sp: string, b: string, rep: string, pending: string, trailing: string)
    requires AllSpaces(sp)
    ensures CallClosesFrom(sp + ")" + b, rep, AfterBrace(pending, trailing))
         == rep + CallClosesFrom(b, rep, BeforeBrace(""))
    decreases |sp|
  {
    var s := sp + ")" + b;
    if |sp| > 0 {
      assert s[0] == ' ' && s[1..] == sp[1..] + ")" + b;
      CallClosesFromClose(sp[1..], b, rep, pending, trailing + " ");
    } else {
      assert s[0] == ')' && s[1..] == b;
    }
  }

  /** Spaces, `}`, spaces and `)` form one match, replaced by `rep`. */
  lemma {:induction false} CallClosesFromMatch(sp1: string, sp2: string, b: string, rep: string, pending: string)
    requires AllSpaces(sp1) && AllSpaces(sp2)
    ensures CallClosesFrom(sp1 + "}" + sp2 + ")" + b, rep, BeforeBrace(pending))
         == rep + CallClosesFrom(b, rep, BeforeBrace(""))
    decreases |sp1|
  {
    var s := sp1 + "}" + sp2 + ")" + b;
    if |sp1| > 0 {
      assert s[0] == ' ' && s[1..] == sp1[1..] + "}" + sp2 + ")" + b;
      CallClosesFromMatch(sp1[1..], sp2, b, rep, pending + " ");
    } else {
      assert s[0] == '}' && s[1..] == sp2 + ")" + b;
      CallClosesFromClose(sp2, b, rep, pending, "");
    }
  }

  /**
   After a `}` that no `)` closed, spaces, `}`, spaces and `)` still form a
   match: the earlier `}` and its leading spaces are written out as they are.
   */
  lemma {:induction false} CallClosesFromBraceThenMatch(sp1: string, sp2: string, b: string, rep: string, pending: string, trailing: string)
    requires AllSpaces(sp1) && AllSpaces(sp2)
    ensures CallClosesFrom(sp1 + "}" + sp2 + ")" + b, rep, AfterBrace(pending, trailing))
         == pending + "}" + rep + CallClosesFrom(b, rep, BeforeBrace(""))
    decreases |sp1|
  {
    var s := sp1 + "}" + sp2 + ")" + b;
    if |sp1| > 0 {
      assert s[0] == ' ' && s[1..] == sp1[1..] + "}" + sp2 + ")" + b;
      CallClosesFromBraceThenMatch(sp1[1..], sp2, b, rep, pending, trailing + " ");
    } else {
      assert s[0] == '}' && s == "" + "}" + sp2 + ")" + b;
      CallClosesFromMatch("", sp2, b, rep, trailing);
    }
  }

  /**
   The first call close of `a + sp1 + "}" + sp2 + ")" + b` is found with its
   leading spaces: it is replaced by `rep`, the match-free text `a` before it
   is kept, and the rewriting goes on in `b`.
   */
  lemma ReplaceCallClosesSplit(a: string, sp1: string, sp2: string, b: string, rep: string)
    requires !HasCallClose(a)
    requires |a| == 0 || a[|a| - 1] != ' '
    requires AllSpaces(sp1) && AllSpaces(sp2)
    ensures ReplaceCallCloses(a + sp1 + "}" + sp2 + ")" + b, rep) == a + rep + ReplaceCallCloses(b, rep)
  {
    var t := sp1 + "}" + sp2 + ")" + b;
    assert a + sp1 + "}" + sp2 + ")" + b == a + t;
    assert BeforeBrace("").Held() + a == a;
    var emitted, next := CallClosesFromPrefix(a, t, rep, BeforeBrace(""));
    if |a| == 0 {
      assert next == BeforeBrace("");
      CallClosesFromMatch(sp1, sp2, b, rep, "");
    } else if a[|a| - 1] == '}' {
      var rest := ReplaceCallCloses(b, rep);
      CallClosesFromBraceThenMatch(sp1, sp2, b, rep, next.pending, "");
      assert emitted + (next.pending + "}" + "") == a;
      AppendAssoc(emitted, next.pending + "}", rep + rest);
      assert next.pending + "}" + rep + rest == (next.pending + "}") + (rep + rest);
    } else {
      CallClosesFromMatch(sp1, sp2, b, rep, "");
      assert emitted + "" == a;
    }
  }
}
