/**
 * The few QString operations the configuration parser relies on, over
 * `string` (a `seq<char>`). Whitespace and case are ASCII-only: QString
 * treats every Unicode space as whitespace and folds case by Unicode rules,
 * the model keeps the ASCII part of both.
 */
module Text {

  /** Whitespace as `QString::trimmed` sees it, ASCII only: space, TAB, LF, VT, FF and CR. */
  predicate IsSpace(c: char) {
    c == ' ' || '\t' <= c <= '\r'
  }

  predicate AllSpace(s: string) {
    forall i :: 0 <= i < |s| ==> IsSpace(s[i])
  }

  /** The shape of a trimmed string: empty, or no whitespace at either end. */
  predicate Trimmed(s: string) {
    s == [] || (!IsSpace(s[0]) && !IsSpace(s[|s| - 1]))
  }

  /** `s` without its leading whitespace. */
  function TrimStart(s: string): string {
    if |s| > 0 && IsSpace(s[0]) then TrimStart(s[1..]) else s
  }

  /** `s` without its trailing whitespace. */
  function TrimEnd(s: string): string {
    if |s| > 0 && IsSpace(s[|s| - 1]) then TrimEnd(s[..|s| - 1]) else s
  }

  /** `TrimStart` leaves the longest suffix that does not start with a space. */
  lemma {:induction false} TrimStartSpec(s: string)
    ensures |TrimStart(s)| <= |s| && TrimStart(s) == s[|s| - |TrimStart(s)|..]
    ensures AllSpace(s[..|s| - |TrimStart(s)|])
    ensures TrimStart(s) == [] || !IsSpace(TrimStart(s)[0])
  {
    if |s| > 0 && IsSpace(s[0]) {
      TrimStartSpec(s[1..]);
      var r := TrimStart(s[1..]);
      assert s[..|s| - |r|] == [s[0]] + s[1..][..|s| - 1 - |r|];
    }
  }

  /** `TrimEnd` leaves the longest prefix that does not end with a space. */
  lemma {:induction false} TrimEndSpec(s: string)
    ensures |TrimEnd(s)| <= |s| && TrimEnd(s) == s[..|TrimEnd(s)|]
    ensures AllSpace(s[|TrimEnd(s)|..])
    ensures TrimEnd(s) == [] || !IsSpace(TrimEnd(s)[|TrimEnd(s)| - 1])
  {
    if |s| > 0 && IsSpace(s[|s| - 1]) {
      TrimEndSpec(s[..|s| - 1]);
      var r := TrimEnd(s[..|s| - 1]);
      assert s[|r|..] == s[..|s| - 1][|r|..] + [s[|s| - 1]];
    }
  }

  /** `QString::trimmed`: whitespace removed from both ends. */
  function Trim(s: string): (r: string)
    ensures Trimmed(r)
  {
    TrimStartSpec(s);
    TrimEndSpec(TrimStart(s));
    TrimEnd(TrimStart(s))
  }

  lemma {:induction false} TrimStartSplit(s: string) returns (a: string)
    ensures s == a + TrimStart(s) && AllSpace(a)
  {
    TrimStartSpec(s);
    a := s[..|s| - |TrimStart(s)|];
    assert s == a + TrimStart(s);
  }

  lemma {:induction false} TrimEndSplit(s: string) returns (b: string)
    ensures s == TrimEnd(s) + b && AllSpace(b)
  {
    TrimEndSpec(s);
    b := s[|TrimEnd(s)|..];
    assert s == TrimEnd(s) + b;
  }

  /** Every string is its trimmed form padded with whitespace on both sides. */
  lemma {:induction false} TrimSplit(s: string) returns (a: string, b: string)
    ensures s == a + Trim(s) + b
    ensures AllSpace(a) && AllSpace(b)
  {
    a := TrimStartSplit(s);
    b := TrimEndSplit(TrimStart(s));
    assert s == a + (Trim(s) + b);
  }

  /** Leading whitespace in front of a core that does not start with a space is all `TrimStart` removes. */
  lemma {:induction false} TrimStartPadded(a: string, t: string)
    requires AllSpace(a)
    requires t == [] || !IsSpace(t[0])
    ensures TrimStart(a + t) == t
  {
    if a != [] {
      assert (a + t)[1..] == a[1..] + t;
      TrimStartPadded(a[1..], t);
    }
  }

  /** Trailing whitespace behind a core that does not end with a space is all `TrimEnd` removes. */
  lemma {:induction false} TrimEndPadded(t: string, b: string)
    requires AllSpace(b)
    requires t == [] || !IsSpace(t[|t| - 1])
    ensures TrimEnd(t + b) == t
  {
    if b != [] {
      var b' := b[..|b| - 1];
      assert (t + b)[..|t + b| - 1] == t + b';
      TrimEndPadded(t, b');
    } else {
      assert t + b == t;
    }
  }

  /** Trimming removes exactly the whitespace padding around a trimmed core. */
  lemma TrimUnique(a: string, m: string, b: string)
    requires AllSpace(a) && AllSpace(b) && Trimmed(m)
    ensures Trim(a + m + b) == m
  {
    if m == [] {
      var s := a + b;
      assert AllSpace(s) by {
        forall i | 0 <= i < |s| ensures IsSpace(s[i]) {
          if i < |a| { assert s[i] == a[i]; } else { assert s[i] == b[i - |a|]; }
        }
      }
      TrimStartPadded(s, []);
      assert a + m + b == s + [];
    } else {
      assert a + m + b == a + (m + b);
      TrimStartPadded(a, m + b);
      TrimEndPadded(m, b);
    }
  }

  /** A string is its own trimmed form exactly when it is trimmed. */
  lemma TrimFixed(s: string)
    ensures Trim(s) == s <==> Trimmed(s)
  {
    if Trimmed(s) {
      TrimUnique([], s, []);
      assert [] + s + [] == s;
    }
  }

  lemma AllSpaceConcat(a: string, b: string)
    requires AllSpace(a) && AllSpace(b)
    ensures AllSpace(a + b)
  {
    assert forall i :: 0 <= i < |a + b| ==> (a + b)[i] == if i < |a| then a[i] else b[i - |a|];
  }

  /** Trimming twice is trimming once. */
  lemma TrimIdempotent(s: string)
    ensures Trim(Trim(s)) == Trim(s)
  {
    TrimUnique([], Trim(s), []);
    assert [] + Trim(s) + [] == Trim(s);
  }

  /** A string trims to nothing exactly when it is all whitespace. */
  lemma TrimEmptyIffSpace(s: string)
    ensures Trim(s) == [] <==> AllSpace(s)
  {
    var a, b := TrimSplit(s);
    if Trim(s) == [] {
      assert s == a + b;
      AllSpaceConcat(a, b);
    } else {
      assert s[|a|] == Trim(s)[0];
    }
  }

  /** A character that `s` does not hold is not in `Trim(s)` either. */
  lemma TrimKeepsAbsent(s: string, c: char)
    requires c !in s
    ensures c !in Trim(s)
  {
    var a, b := TrimSplit(s);
    forall j | 0 <= j < |Trim(s)| ensures Trim(s)[j] != c {
      assert Trim(s)[j] == s[|a| + j];
    }
  }

  /** ASCII lower case, the model of Qt's case folding. */
  function Lower(c: char): char {
    if 'A' <= c <= 'Z' then (c as int + 32) as char else c
  }

  /** `s.startsWith(p, Qt::CaseInsensitive)`. */
  predicate StartsWithCI(s: string, p: string) {
    |p| <= |s| && forall i :: 0 <= i < |p| ==> Lower(s[i]) == Lower(p[i])
  }

  /** `s.endsWith(p, Qt::CaseInsensitive)`. */
  predicate EndsWithCI(s: string, p: string) {
    |p| <= |s| && forall i :: 0 <= i < |p| ==> Lower(s[|s| - |p| + i]) == Lower(p[i])
  }

  /** `a.compare(b, Qt::CaseInsensitive) == 0`. */
  predicate EqualsCI(a: string, b: string) {
    |a| == |b| && StartsWithCI(a, b)
  }

  /** `s` with every letter lower-cased: the reference the case-insensitive comparisons are checked against. */
  function Lowered(s: string): (r: string)
    ensures |r| == |s| && forall i :: 0 <= i < |s| ==> r[i] == Lower(s[i])
  {
    seq(|s|, i requires 0 <= i < |s| => Lower(s[i]))
  }

  /** `startsWith(p, CaseInsensitive)` is: the first `|p|` characters, lower-cased, are `p` lower-cased. */
  lemma StartsWithCILowered(s: string, p: string)
    ensures StartsWithCI(s, p) <==> |p| <= |s| && Lowered(s[..|p|]) == Lowered(p)
  {
    if |p| <= |s| {
      if StartsWithCI(s, p) {
        assert forall i :: 0 <= i < |p| ==> Lowered(s[..|p|])[i] == Lowered(p)[i];
      }
      if Lowered(s[..|p|]) == Lowered(p) {
        forall i | 0 <= i < |p| ensures Lower(s[i]) == Lower(p[i]) {
          assert Lowered(s[..|p|])[i] == Lower(s[i]);
        }
      }
    }
  }

  /** `endsWith(p, CaseInsensitive)` is: the last `|p|` characters, lower-cased, are `p` lower-cased. */
  lemma EndsWithCILowered(s: string, p: string)
    ensures EndsWithCI(s, p) <==> |p| <= |s| && Lowered(s[|s| - |p|..]) == Lowered(p)
  {
    if |p| <= |s| {
      var t := s[|s| - |p|..];
      assert forall i :: 0 <= i < |p| ==> t[i] == s[|s| - |p| + i];
      if EndsWithCI(s, p) {
        assert forall i :: 0 <= i < |p| ==> Lowered(t)[i] == Lowered(p)[i];
      }
    }
  }

  /** `compare(b, CaseInsensitive) == 0` is equality once both sides are lower-cased. */
  lemma EqualsCILowered(a: string, b: string)
    ensures EqualsCI(a, b) <==> Lowered(a) == Lowered(b)
  {
    StartsWithCILowered(a, b);
    if |a| == |b| {
      assert a[..|b|] == a;
    } else {
      assert |Lowered(a)| != |Lowered(b)|;
    }
  }

  /**
   * `s.remove(p, Qt::CaseInsensitive)`: every occurrence of `p` found scanning
   * left to right is deleted; occurrences that only appear once a neighbour
   * is deleted stay. An empty pattern leaves `s` alone.
   */
  function RemoveAllCI(s: string, p: string): (r: string)
    decreases |s|
    ensures |r| <= |s|
  {
    if p == [] then s
    else if StartsWithCI(s, p) then RemoveAllCI(s[|p|..], p)
    else if s == [] then []
    else [s[0]] + RemoveAllCI(s[1..], p)
  }

  /** Removing only deletes: every character left was in `s`, no more often than there. */
  lemma {:induction false} RemoveAllCIDeletes(s: string, p: string)
    decreases |s|
    ensures multiset(RemoveAllCI(s, p)) <= multiset(s)
  {
    if p != [] && StartsWithCI(s, p) {
      RemoveAllCIDeletes(s[|p|..], p);
      assert s == s[..|p|] + s[|p|..];
    } else if p != [] && s != [] {
      RemoveAllCIDeletes(s[1..], p);
      assert s == [s[0]] + s[1..];
    }
  }

  /** `s.indexOf(c)`: the first position of `c`, or -1 when there is none. */
  function IndexOf(s: string, c: char): (k: int)
    ensures -1 <= k < |s|
    ensures k == -1 <==> c !in s
    ensures 0 <= k ==> s[k] == c && c !in s[..k]
  {
    if s == [] then -1
    else if s[0] == c then 0
    else
      var k := IndexOf(s[1..], c);
      if k == -1 then -1
      else
        assert s[..k + 1] == [s[0]] + s[1..][..k];
        k + 1
  }

  /** When no character of `s` matches the last character of `p`, `p` does not occur in `s`. */
  lemma {:induction false} RemoveAbsent(s: string, p: string)
    requires p != []
    requires forall i :: 0 <= i < |s| ==> Lower(s[i]) != Lower(p[|p| - 1])
    ensures RemoveAllCI(s, p) == s
  {
    if s != [] {
      assert |p| <= |s| ==> Lower(s[|p| - 1]) != Lower(p[|p| - 1]);
      assert !StartsWithCI(s, p);
      RemoveAbsent(s[1..], p);
      assert [s[0]] + s[1..] == s;
    }
  }

  /**
   * A trailing `q`, which matches `p` in any case, is removed and nothing
   * before it, when neither `s` nor the rest of `p` holds a character
   * matching the last character of `p`.
   */
  lemma {:induction false} RemoveTrailing(s: string, q: string, p: string)
    requires p != [] && |q| == |p| && StartsWithCI(q, p)
    requires forall i :: 0 <= i < |s| ==> Lower(s[i]) != Lower(p[|p| - 1])
    requires forall i :: 0 <= i < |p| - 1 ==> Lower(p[i]) != Lower(p[|p| - 1])
    ensures RemoveAllCI(s + q, p) == s
  {
    var t := s + q;
    var j := |p| - 1;
    if s == [] {
      assert t == q;
      assert q[|p|..] == [];
    } else {
      if j < |s| {
        assert t[j] == s[j];
      } else {
        assert t[j] == q[j - |s|];
        assert Lower(q[j - |s|]) == Lower(p[j - |s|]);
      }
      assert !StartsWithCI(t, p);
      assert t[1..] == s[1..] + q;
      RemoveTrailing(s[1..], q, p);
    }
  }

  /**
   * A leading `q`, which matches `p` in any case, is removed and nothing
   * after it, when the rest holds no character matching the last of `p`.
   */
  lemma RemoveLeading(q: string, p: string, s: string)
    requires p != [] && |q| == |p| && StartsWithCI(q, p)
    requires forall i :: 0 <= i < |s| ==> Lower(s[i]) != Lower(p[|p| - 1])
    ensures RemoveAllCI(q + s, p) == s
  {
    assert forall i :: 0 <= i < |p| ==> (q + s)[i] == q[i];
    assert StartsWithCI(q + s, p);
    assert (q + s)[|p|..] == s;
    RemoveAbsent(s, p);
  }

  // ---------------------------------------------------------------------
  // Lines of a text stream

  /** The text a stream holds once `lines` are written to it, each followed by a newline. */
  function JoinLines(lines: seq<string>): string
    decreases |lines|
  {
    if lines == [] then [] else lines[0] + "\n" + JoinLines(lines[1..])
  }

  /**
   * `QTextStream::readLineInto`, repeated until it reports the end: the text
   * cut at every newline, the newlines dropped. A last line without a newline
   * still counts; an empty text has no lines.
   */
  function SplitLines(text: string): (lines: seq<string>)
    decreases |text|
    ensures forall i :: 0 <= i < |lines| ==> '\n' !in lines[i]
  {
    if text == [] then []
    else
      var k := IndexOf(text, '\n');
      if k < 0 then [text] else [text[..k]] + SplitLines(text[k + 1..])
  }

  /** Writing one more line adds it and its newline at the end of the text. */
  lemma {:induction false} JoinLinesSnoc(lines: seq<string>, line: string)
    decreases |lines|
    ensures JoinLines(lines + [line]) == JoinLines(lines) + line + "\n"
  {
    if lines == [] {
      assert [] + [line] == [line];
      assert [line][1..] == [];
    } else {
      assert (lines + [line])[0] == lines[0];
      assert (lines + [line])[1..] == lines[1..] + [line];
      JoinLinesSnoc(lines[1..], line);
    }
  }

  /** The text of two runs of lines is the text of the one followed by the text of the other. */
  lemma {:induction false} JoinLinesConcat(a: seq<string>, b: seq<string>)
    decreases |a|
    ensures JoinLines(a + b) == JoinLines(a) + JoinLines(b)
  {
    if a == [] {
      assert a + b == b;
    } else {
      assert (a + b)[0] == a[0];
      assert (a + b)[1..] == a[1..] + b;
      JoinLinesConcat(a[1..], b);
    }
  }

  /** A first line without a newline is read as it was written, and reading goes on after its newline. */
  lemma SplitLinesHead(head: string, rest: string)
    requires '\n' !in head
    ensures SplitLines(head + "\n" + rest) == [head] + SplitLines(rest)
  {
    var t := head + "\n" + rest;
    assert t[|head|] == '\n';
    assert t[..|head|] == head;
    assert IndexOf(t, '\n') == |head|;
    assert t[|head| + 1..] == rest;
  }

  /** Reading back lines that hold no newline gives exactly those lines. */
  lemma {:induction false} SplitJoin(lines: seq<string>)
    requires forall i :: 0 <= i < |lines| ==> '\n' !in lines[i]
    decreases |lines|
    ensures SplitLines(JoinLines(lines)) == lines
  {
    if lines != [] {
      SplitLinesHead(lines[0], JoinLines(lines[1..]));
      SplitJoin(lines[1..]);
      assert [lines[0]] + lines[1..] == lines;
    }
  }

  /** A character absent from a text is absent from every suffix of it. */
  lemma SuffixKeepsAbsent(s: string, i: nat, c: char)
    requires i <= |s| && c !in s
    ensures c !in s[i..]
  {
    forall j | 0 <= j < |s| - i ensures s[i..][j] != c {
      assert s[i..][j] == s[i + j];
    }
  }

  /** A text cut at a newline is the text before it, the newline and the text after it. */
  lemma CutAtNewline(text: string, k: nat)
    requires k < |text| && text[k] == '\n'
    ensures text == text[..k] + "\n" + text[k + 1..]
  {
  }

  /** Concatenation is associative; stated once so that proofs can cite it instead of searching for it. */
  lemma ConcatAssoc<T>(a: seq<T>, b: seq<T>, c: seq<T>)
    ensures a + (b + c) == a + b + c
  {
  }

  /**
   * Lines appended to a text that is empty or ends in a newline are read
   * back as the lines of that text followed by exactly the appended lines,
   * when none of them holds a newline.
   */
  lemma {:induction false} SplitAppended(text: string, lines: seq<string>)
    requires text == [] || text[|text| - 1] == '\n'
    requires forall i :: 0 <= i < |lines| ==> '\n' !in lines[i]
    decreases |text|
    ensures SplitLines(text + JoinLines(lines)) == SplitLines(text) + lines
  {
    var tail := JoinLines(lines);
    if text == [] {
      SplitJoin(lines);
      assert text + tail == tail;
    } else {
      var k := IndexOf(text, '\n');
      var head, rest := text[..k], text[k + 1..];
      CutAtNewline(text, k);
      assert rest == [] || rest[|rest| - 1] == '\n';
      SplitLinesHead(head, rest);
      SplitLinesHead(head, rest + tail);
      ConcatAssoc(head + "\n", rest, tail);
      SplitAppended(rest, lines);
      ConcatAssoc([head], SplitLines(rest), lines);
    }
  }
}
