/** Whitespace tokenisation as done by Python's `str.split()` with no argument:
    runs of whitespace separate tokens, and leading or trailing whitespace
    yields no empty token. */
module Tokens {

  /** The characters `str.isspace()` accepts, which `str.split()` splits on:
      the ASCII controls TAB, LF, VT, FF, CR, the separators 0x1C-0x1F, SPACE,
      and the Unicode white space characters. */
  predicate IsSpace(c: char)
    ensures IsSpace(c) <==> c in PYTHON_WHITESPACE
  {
    var n := c as int;
    (0x09 <= n <= 0x0D) || (0x1C <= n <= 0x20) || n == 0x85 || n == 0xA0 ||
    n == 0x1680 || (0x2000 <= n <= 0x200A) || n == 0x2028 || n == 0x2029 ||
    n == 0x202F || n == 0x205F || n == 0x3000
  }

  /** The same characters listed one by one: `\t \n \v \f \r`, the four
      information separators, space, NEL, no-break space, ogham space mark,
      the eleven spaces U+2000-U+200A, line and paragraph separator, narrow
      no-break space, medium mathematical space and ideographic space. */
  const PYTHON_WHITESPACE: set<char> := {
    '\t', '\n', '\U{B}', '\U{C}', '\r',
    '\U{1C}', '\U{1D}', '\U{1E}', '\U{1F}', ' ',
    '\U{85}', '\U{A0}', '\U{1680}',
    '\U{2000}', '\U{2001}', '\U{2002}', '\U{2003}', '\U{2004}', '\U{2005}',
    '\U{2006}', '\U{2007}', '\U{2008}', '\U{2009}', '\U{200A}',
    '\U{2028}', '\U{2029}', '\U{202F}', '\U{205F}', '\U{3000}'
  }

  /** A token is a non-empty run of non-space characters. */
  predicate IsToken(t: string) {
    |t| > 0 && forall i :: 0 <= i < |t| ==> !IsSpace(t[i])
  }

  predicate AllSpace(s: string) {
    forall i :: 0 <= i < |s| ==> IsSpace(s[i])
  }

  /** Length of the run of non-space characters that starts `s`. */
  function TokenLength(s: string): (n: nat)
    ensures n <= |s|
    ensures forall i :: 0 <= i < n ==> !IsSpace(s[i])
    ensures n < |s| ==> IsSpace(s[n])
  {
    if s == [] || IsSpace(s[0]) then 0 else 1 + TokenLength(s[1..])
  }

  /** `s.split()`: the maximal runs of non-space characters, in order. */
  function Split(s: string): (r: seq<string>)
    ensures forall i :: 0 <= i < |r| ==> IsToken(r[i])
    decreases |s|
  {
    if s == [] then []
    else if IsSpace(s[0]) then Split(s[1..])
    else
      var n := TokenLength(s);
      [s[..n]] + Split(s[n..])
  }

  /** The non-space characters of `s`, in order. */
  function Squeeze(s: string): string {
    if s == [] then []
    else if IsSpace(s[0]) then Squeeze(s[1..])
    else [s[0]] + Squeeze(s[1..])
  }

  function Concat(ts: seq<string>): string {
    if ts == [] then [] else ts[0] + Concat(ts[1..])
  }

  /** A listing with one entry per line, each line ended by a newline, as
      `git tag` prints it. */
  function Lines(ts: seq<string>): string {
    if ts == [] then [] else ts[0] + "\n" + Lines(ts[1..])
  }

  lemma {:induction false} SqueezeAppend(a: string, b: string)
    ensures Squeeze(a + b) == Squeeze(a) + Squeeze(b)
    decreases |a|
  {
    if a == [] {
      assert a + b == b;
    } else {
      assert (a + b)[0] == a[0];
      assert (a + b)[1..] == a[1..] + b;
      SqueezeAppend(a[1..], b);
    }
  }

  lemma {:induction false} SqueezeOfToken(t: string)
    requires forall i :: 0 <= i < |t| ==> !IsSpace(t[i])
    ensures Squeeze(t) == t
    decreases |t|
  {
    if t != [] {
      SqueezeOfToken(t[1..]);
      assert [t[0]] + t[1..] == t;
    }
  }

  /** Splitting loses exactly the whitespace: the tokens, put back together,
      are the non-space characters of the input in their original order. */
  lemma {:induction false} SplitKeepsText(s: string)
    ensures Concat(Split(s)) == Squeeze(s)
    decreases |s|
  {
    if s == [] {
    } else if IsSpace(s[0]) {
      SplitKeepsText(s[1..]);
    } else {
      var n := TokenLength(s);
      assert s == s[..n] + s[n..];
      SqueezeAppend(s[..n], s[n..]);
      SqueezeOfToken(s[..n]);
      SplitKeepsText(s[n..]);
      assert Split(s)[1..] == Split(s[n..]);
    }
  }

  /** No tokens exactly when the input is blank. */
  lemma {:induction false} SplitEmpty(s: string)
    ensures Split(s) == [] <==> AllSpace(s)
    decreases |s|
  {
    if s != [] {
      SplitEmpty(s[1..]);
      if IsSpace(s[0]) {
        assert AllSpace(s) <==> AllSpace(s[1..]) by {
          if AllSpace(s[1..]) {
            forall i | 0 <= i < |s| ensures IsSpace(s[i]) {
              if i > 0 { assert s[i] == s[1..][i - 1]; }
            }
          }
        }
      }
    }
  }

  lemma {:induction false} TokenLengthOfToken(t: string, rest: string)
    requires IsToken(t)
    requires rest == [] || IsSpace(rest[0])
    ensures TokenLength(t + rest) == |t|
    decreases |t|
  {
    if |t| > 1 {
      assert (t + rest)[1..] == t[1..] + rest;
      TokenLengthOfToken(t[1..], rest);
    } else {
      assert (t + rest)[1..] == rest;
    }
  }

  /** Reading back a newline-separated listing of tokens gives the tokens. */
  lemma {:induction false} SplitLines(ts: seq<string>)
    requires forall i :: 0 <= i < |ts| ==> IsToken(ts[i])
    ensures Split(Lines(ts)) == ts
    decreases |ts|
  {
    if ts != [] {
      var t, rest := ts[0], Lines(ts[1..]);
      var s := Lines(ts);
      assert s == t + ("\n" + rest);
      TokenLengthOfToken(t, "\n" + rest);
      assert s[..|t|] == t;
      assert s[|t|..] == "\n" + rest;
      assert ("\n" + rest)[1..] == rest;
      SplitLines(ts[1..]);
      assert [ts[0]] + ts[1..] == ts;
    }
  }

  /** `ws[0] + ts[0] + ws[1] + ... + ts[n-1] + ws[n]`: tokens with whitespace
      around and between them. */
  function Interleave(ws: seq<string>, ts: seq<string>): string
    requires |ws| == |ts| + 1
    decreases |ts|
  {
    ws[0] + if ts == [] then [] else ts[0] + Interleave(ws[1..], ts[1..])
  }

  /** Whitespace runs that may surround `n` tokens: every run is blank, and
      the runs between two tokens are not empty. */
  predicate Separators(ws: seq<string>, n: nat) {
    |ws| == n + 1 &&
    (forall i :: 0 <= i < |ws| ==> AllSpace(ws[i])) &&
    (forall i :: 0 < i < n ==> ws[i] != [])
  }

  lemma {:induction false} SplitSkipsSpace(w: string, s: string)
    requires AllSpace(w)
    ensures Split(w + s) == Split(s)
    decreases |w|
  {
    if w == [] {
      assert w + s == s;
    } else {
      assert (w + s)[0] == w[0];
      assert (w + s)[1..] == w[1..] + s;
      SplitSkipsSpace(w[1..], s);
    }
  }

  /** Splitting is whitespace-separated tokenisation: a string made of
      tokens with any non-empty whitespace runs between them, and any
      whitespace before and after, splits into exactly those tokens. */
  lemma {:induction false} SplitInterleave(ws: seq<string>, ts: seq<string>)
    requires forall i :: 0 <= i < |ts| ==> IsToken(ts[i])
    requires Separators(ws, |ts|)
    ensures Split(Interleave(ws, ts)) == ts
    decreases |ts|
  {
    var s := Interleave(ws, ts);
    if ts == [] {
      assert s == ws[0] + [];
      SplitEmpty(s);
    } else {
      var t, rest := ts[0], Interleave(ws[1..], ts[1..]);
      assert s == ws[0] + (t + rest);
      SplitSkipsSpace(ws[0], t + rest);
      assert rest == ws[1] + (if ts[1..] == [] then [] else ts[1] + Interleave(ws[2..], ts[2..]));
      assert rest == [] || IsSpace(rest[0]) by {
        if ws[1] != [] {
          assert rest[0] == ws[1][0];
        }
      }
      TokenLengthOfToken(t, rest);
      assert (t + rest)[0] == t[0];
      assert (t + rest)[..|t|] == t;
      assert (t + rest)[|t|..] == rest;
      assert Separators(ws[1..], |ts| - 1) by {
        forall i | 0 < i < |ts| - 1 ensures ws[1..][i] != [] {
          assert ws[1..][i] == ws[i + 1];
        }
      }
      SplitInterleave(ws[1..], ts[1..]);
      assert [ts[0]] + ts[1..] == ts;
    }
  }

  /** Every string is its tokens surrounded by whitespace runs, so together
      with `SplitInterleave` this determines `Split` completely. */
  lemma {:induction false} SplitDecomposes(s: string) returns (ws: seq<string>)
    ensures Separators(ws, |Split(s)|)
    ensures Interleave(ws, Split(s)) == s
    ensures |Split(s)| > 0 ==> |ws[0]| < |s| && !IsSpace(s[|ws[0]|])
    decreases |s|
  {
    if s == [] {
      ws := [[]];
    } else if IsSpace(s[0]) {
      var ws' := SplitDecomposes(s[1..]);
      ws := DecomposeSpace(s, ws');
    } else {
      var n := TokenLength(s);
      var ws' := SplitDecomposes(s[n..]);
      ws := DecomposeToken(s, ws');
    }
  }

  /** A leading whitespace character joins the first whitespace run. */
  lemma DecomposeSpace(s: string, ws': seq<string>) returns (ws: seq<string>)
    requires s != [] && IsSpace(s[0])
    requires Separators(ws', |Split(s[1..])|)
    requires Interleave(ws', Split(s[1..])) == s[1..]
    requires |Split(s[1..])| > 0 ==> |ws'[0]| < |s[1..]| && !IsSpace(s[1..][|ws'[0]|])
    ensures Separators(ws, |Split(s)|)
    ensures Interleave(ws, Split(s)) == s
    ensures |Split(s)| > 0 ==> |ws[0]| < |s| && !IsSpace(s[|ws[0]|])
  {
    ws := [[s[0]] + ws'[0]] + ws'[1..];
    assert ws[1..] == ws'[1..];
    assert AllSpace(ws[0]) by {
      forall i | 0 <= i < |ws[0]| ensures IsSpace(ws[0][i]) {
        if i > 0 { assert ws[0][i] == ws'[0][i - 1]; }
      }
    }
    forall i | 0 < i < |ws| ensures AllSpace(ws[i]) && (i < |Split(s)| ==> ws[i] != []) {
      assert ws[i] == ws'[i];
    }
    assert s == [s[0]] + s[1..];
  }

  /** A leading token comes after an empty first whitespace run. */
  lemma DecomposeToken(s: string, ws': seq<string>) returns (ws: seq<string>)
    requires s != [] && !IsSpace(s[0])
    requires Separators(ws', |Split(s[TokenLength(s)..])|)
    requires Interleave(ws', Split(s[TokenLength(s)..])) == s[TokenLength(s)..]
    requires |Split(s[TokenLength(s)..])| > 0 ==>
      |ws'[0]| < |s[TokenLength(s)..]| && !IsSpace(s[TokenLength(s)..][|ws'[0]|])
    ensures Separators(ws, |Split(s)|)
    ensures Interleave(ws, Split(s)) == s
    ensures |Split(s)| > 0 ==> |ws[0]| < |s| && !IsSpace(s[|ws[0]|])
  {
    var n := TokenLength(s);
    ws := [[]] + ws';
    assert ws[1..] == ws';
    if |Split(s[n..])| > 0 {
      assert s[n..][0] == s[n];
      assert ws'[0] != [];
    }
    forall i | 0 < i < |ws| ensures AllSpace(ws[i]) {
      assert ws[i] == ws'[i - 1];
    }
    assert Split(s)[1..] == Split(s[n..]);
    assert s == s[..n] + s[n..];
  }
}
