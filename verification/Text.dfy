/** Replacing, splitting and joining text, and the escape tables built from them. */
module Text {
  import opened Common
  import opened Scopes
  import opened Sequences

  // ----- replace -----

  function ReplaceChar(s: string, c: char, repl: string): string {
    if |s| == 0 then "" else (if s[0] == c then repl else [s[0]]) + ReplaceChar(s[1..], c, repl)
  }

  /** Replaces every occurrence of `pattern`, from left to right, without overlaps. */
  function ReplaceText(s: string, pattern: string, repl: string): string
    requires |pattern| > 0
    decreases |s|
  {
    if |s| == 0 then ""
    else if StartsWith(s, pattern) then repl + ReplaceText(s[|pattern|..], pattern, repl)
    else [s[0]] + ReplaceText(s[1..], pattern, repl)
  }

  lemma {:induction false} ReplaceCharConcat(a: string, b: string, c: char, repl: string)
    ensures ReplaceChar(a + b, c, repl) == ReplaceChar(a, c, repl) + ReplaceChar(b, c, repl)
  {
    if |a| == 0 {
      assert a + b == b;
    } else {
      assert (a + b)[1..] == a[1..] + b;
      ReplaceCharConcat(a[1..], b, c, repl);
    }
  }

  // ----- the escape table -----

  /** The characters that are escaped, in the order in which the chain replaces them. */
  function Special(i: nat): char
    requires i < 4
  {
    if i == 0 then '%' else if i == 1 then '|' else if i == 2 then ',' else '@'
  }

  function Token(i: nat): string
    requires i < 4
  {
    if i == 0 then "%25" else if i == 1 then "%7C" else if i == 2 then "%2C" else "%40"
  }

  /** The first `k` replacements of the escape chain. */
  function EscapeTo(s: string, k: nat): string
    requires k <= 4
  {
    if k == 0 then s else ReplaceChar(EscapeTo(s, k - 1), Special(k - 1), Token(k - 1))
  }

  /** The same `k` replacements undone, last one first. */
  function UnescapeFrom(s: string, k: nat): string
    requires k <= 4
    decreases k
  {
    if k == 0 then s else UnescapeFrom(ReplaceText(s, Token(k - 1), [Special(k - 1)]), k - 1)
  }

  /** Escaping seen one character at a time. */
  function CodedChar(c: char, k: nat): string
    requires k <= 4
  {
    if k > 0 && c == '%' then Token(0)
    else if k > 1 && c == '|' then Token(1)
    else if k > 2 && c == ',' then Token(2)
    else if k > 3 && c == '@' then Token(3)
    else [c]
  }

  function Coded(s: string, k: nat): string
    requires k <= 4
  {
    if |s| == 0 then "" else CodedChar(s[0], k) + Coded(s[1..], k)
  }

  lemma {:induction false} CodeOneMore(c: char, k: nat)
    requires k < 4
    ensures ReplaceChar(CodedChar(c, k), Special(k), Token(k)) == CodedChar(c, k + 1)
  {
    var coded := CodedChar(c, k);
    if |coded| == 3 {
      assert coded[1..][1..] == coded[2..] && coded[2..][1..] == "";
      assert ReplaceChar(coded[2..], Special(k), Token(k)) == coded[2..];
    }
  }

  lemma {:induction false} CodeAllOnceMore(s: string, k: nat)
    requires k < 4
    ensures ReplaceChar(Coded(s, k), Special(k), Token(k)) == Coded(s, k + 1)
  {
    if |s| > 0 {
      CodeAllOnceMore(s[1..], k);
      CodeOneMore(s[0], k);
      ReplaceCharConcat(CodedChar(s[0], k), Coded(s[1..], k), Special(k), Token(k));
    }
  }

  lemma {:induction false} CodedAtZero(s: string)
    ensures Coded(s, 0) == s
  {
    if |s| > 0 { CodedAtZero(s[1..]); }
  }

  /** The chain of replacements is the character-by-character code. */
  lemma {:induction false} EscapeIsCoded(s: string, k: nat)
    requires k <= 4
    ensures EscapeTo(s, k) == Coded(s, k)
  {
    if k == 0 {
      CodedAtZero(s);
    } else {
      EscapeIsCoded(s, k - 1);
      CodeAllOnceMore(s, k - 1);
    }
  }

  /** Text whose first character does not open the pattern passes through unchanged. */
  lemma {:induction false} PassOne(c: char, rest: string, pattern: string, repl: string)
    requires |pattern| > 0 && c != pattern[0]
    ensures ReplaceText([c] + rest, pattern, repl) == [c] + ReplaceText(rest, pattern, repl)
  {
    assert ([c] + rest)[1..] == rest;
  }

  lemma {:induction false} PassToken(i: nat, k: nat, rest: string)
    requires i < 4 && k < 4 && i != k
    ensures ReplaceText(Token(i) + rest, Token(k), [Special(k)]) == Token(i) + ReplaceText(rest, Token(k), [Special(k)])
  {
    var t, repl := Token(i), [Special(k)];
    var s := t + rest;
    assert s[1..] == [t[1]] + ([t[2]] + rest);
    assert !StartsWith(s, Token(k)) by { assert s[..3] == t; }
    PassOne(t[1], [t[2]] + rest, Token(k), repl);
    PassOne(t[2], rest, Token(k), repl);
    assert [t[0]] + ([t[1]] + ([t[2]] + ReplaceText(rest, Token(k), repl))) == t + ReplaceText(rest, Token(k), repl);
  }

  /** Undoing the last replacement turns the code of level `k + 1` into the code of level `k`. */
  lemma {:induction false} UncodeOnce(s: string, k: nat)
    requires k < 4
    ensures ReplaceText(Coded(s, k + 1), Token(k), [Special(k)]) == Coded(s, k)
  {
    if |s| > 0 {
      var c, rest := s[0], Coded(s[1..], k + 1);
      UncodeOnce(s[1..], k);
      if c == Special(k) {
        assert CodedChar(c, k + 1) == Token(k) && CodedChar(c, k) == [c];
        assert (Token(k) + rest)[..3] == Token(k) && (Token(k) + rest)[3..] == rest;
      } else if c == '%' {
        PassToken(0, k, rest);
      } else if k > 1 && c == '|' {
        PassToken(1, k, rest);
      } else if k > 2 && c == ',' {
        PassToken(2, k, rest);
      } else {
        assert CodedChar(c, k + 1) == [c] && CodedChar(c, k) == [c];
        PassOne(c, rest, Token(k), [Special(k)]);
      }
    }
  }

  lemma {:induction false} UncodeAll(s: string, k: nat)
    requires k <= 4
    ensures UnescapeFrom(Coded(s, k), k) == s
  {
    if k == 0 {
      CodedAtZero(s);
    } else {
      UncodeOnce(s, k - 1);
      UncodeAll(s, k - 1);
    }
  }

  /** Unescaping undoes escaping on every text. */
  lemma {:induction false} UnescapeUndoesEscape(s: string, k: nat)
    requires k <= 4
    ensures UnescapeFrom(EscapeTo(s, k), k) == s
  {
    EscapeIsCoded(s, k);
    UncodeAll(s, k);
  }

  lemma {:induction false} CodedHasNoSeparator(s: string, k: nat, i: nat)
    requires 0 < i < k <= 4
    ensures Special(i) !in Coded(s, k)
  {
    if |s| > 0 { CodedHasNoSeparator(s[1..], k, i); }
  }

  /** Escaped text holds none of the separators. */
  lemma {:induction false} EscapedHasNoSeparator(s: string, k: nat, i: nat)
    requires 0 < i < k <= 4
    ensures Special(i) !in EscapeTo(s, k)
  {
    EscapeIsCoded(s, k);
    CodedHasNoSeparator(s, k, i);
  }

  // ----- split and join -----

  function Split(s: string, c: char): (parts: seq<string>)
    ensures |parts| > 0
  {
    if |s| == 0 then [""]
    else
      var rest := Split(s[1..], c);
      if s[0] == c then [""] + rest else [[s[0]] + rest[0]] + rest[1..]
  }

  function Join(parts: seq<string>, c: char): string {
    if |parts| == 0 then "" else if |parts| == 1 then parts[0] else parts[0] + [c] + Join(parts[1..], c)
  }

  lemma {:induction false} SplitPart(part: string, c: char)
    requires c !in part
    ensures Split(part, c) == [part]
  {
    if |part| > 0 {
      SplitPart(part[1..], c);
      assert [part[0]] + part[1..] == part;
    }
  }

  lemma {:induction false} SplitFirst(part: string, rest: string, c: char)
    requires c !in part
    ensures Split(part + [c] + rest, c) == [part] + Split(rest, c)
  {
    var s := part + [c] + rest;
    if |part| == 0 {
      assert s[1..] == rest;
    } else {
      assert s[1..] == part[1..] + [c] + rest;
      SplitFirst(part[1..], rest, c);
      assert [part[0]] + part[1..] == part;
    }
  }

  /** Splitting undoes joining when no part holds the separator. */
  lemma {:induction false} SplitUndoesJoin(parts: seq<string>, c: char)
    requires |parts| > 0 && forall i :: 0 <= i < |parts| ==> c !in parts[i]
    ensures Split(Join(parts, c), c) == parts
  {
    if |parts| == 1 {
      SplitPart(parts[0], c);
    } else {
      SplitUndoesJoin(parts[1..], c);
      SplitFirst(parts[0], Join(parts[1..], c), c);
    }
  }

  lemma {:induction false} JoinAvoids(parts: seq<string>, c: char, d: char)
    requires c != d && forall i :: 0 <= i < |parts| ==> d !in parts[i]
    ensures d !in Join(parts, c)
  {
    if |parts| > 1 { JoinAvoids(parts[1..], c, d); }
  }
}
