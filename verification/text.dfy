/**
 * The handful of Python string primitives the core relies on:
 * `str.isspace` (as used by `str.strip()` and `str.split()`),
 * `' '.join(s.split())`, ASCII `str.lower()`, substring tests and
 * `s.split(sep)[-1]`.
 */
module Text {

  /** Python's `str.isspace` for one character: the characters `str.split()`
      and `str.strip()` treat as whitespace. */
  predicate IsSpace(c: char) {
    var n := c as int;
    || (9 <= n <= 13) || (0x1C <= n <= 0x20)
    || n == 0x85 || n == 0xA0 || n == 0x1680
    || (0x2000 <= n <= 0x200A)
    || n == 0x2028 || n == 0x2029 || n == 0x202F || n == 0x205F || n == 0x3000
  }

  /** `not s.strip()`: the string is empty or whitespace only. */
  predicate AllSpace(s: string) {
    forall i :: 0 <= i < |s| ==> IsSpace(s[i])
  }

  /** `s.lstrip()` */
  function TrimLeft(s: string): (r: string)
    ensures |r| <= |s| && r == s[|s| - |r|..]
    ensures r == [] || !IsSpace(r[0])
    ensures forall i :: 0 <= i < |s| - |r| ==> IsSpace(s[i])
  {
    if s == [] || !IsSpace(s[0]) then s else TrimLeft(s[1..])
  }

  /** `s.rstrip()` */
  function TrimRight(s: string): (r: string)
    ensures |r| <= |s| && r == s[..|r|]
    ensures r == [] || !IsSpace(r[|r| - 1])
    ensures forall i :: |r| <= i < |s| ==> IsSpace(s[i])
  {
    if s == [] || !IsSpace(s[|s| - 1]) then s else TrimRight(s[..|s| - 1])
  }

  /** `s.strip()`: the longest factor of `s` that neither starts nor ends with
      whitespace; empty exactly when `s` is whitespace only. */
  function Strip(s: string): (r: string)
    ensures |r| <= |s|
    ensures r == [] <==> AllSpace(s)
    ensures r != [] ==> !IsSpace(r[0]) && !IsSpace(r[|r| - 1])
  {
    var t := TrimLeft(s);
    TrimLeftEmpty(s);
    TrimRightEmpty(t);
    LeadingVisible(t);
    assert TrimRight(t) != [] ==> TrimRight(t)[0] == t[0];
    TrimRight(t)
  }

  /** A string that does not start with whitespace is blank only if empty. */
  lemma LeadingVisible(t: string)
    requires t == [] || !IsSpace(t[0])
    ensures AllSpace(t) <==> t == []
  {
  }

  /** Where the stripped text starts in `s`. */
  function StripStart(s: string): nat {
    |s| - |TrimLeft(s)|
  }

  /** `s.strip()` is the factor of `s` starting at `StripStart(s)`, and
      everything cut off on either side is whitespace. */
  lemma StripFactor(s: string)
    ensures var a := StripStart(s);
      && a + |Strip(s)| <= |s|
      && Strip(s) == s[a..a + |Strip(s)|]
      && (forall i :: 0 <= i < a ==> IsSpace(s[i]))
      && (forall i :: a + |Strip(s)| <= i < |s| ==> IsSpace(s[i]))
  {
    StripLocated(s);
    StripCutSpace(s);
  }

  lemma StripLocated(s: string)
    ensures StripStart(s) + |Strip(s)| <= |s|
    ensures Strip(s) == s[StripStart(s)..StripStart(s) + |Strip(s)|]
  {
    var t := TrimLeft(s);
    var r := TrimRight(t);
    assert Strip(s) == r;
    PrefixOfSuffix(s, StripStart(s), |r|);
  }

  /** A prefix of a suffix is a factor. */
  lemma PrefixOfSuffix<T>(s: seq<T>, a: nat, k: nat)
    requires a + k <= |s|
    ensures s[a..][..k] == s[a..a + k]
  {
  }

  lemma StripCutSpace(s: string)
    ensures forall i :: 0 <= i < StripStart(s) ==> IsSpace(s[i])
    ensures forall i :: StripStart(s) + |Strip(s)| <= i < |s| ==> IsSpace(s[i])
  {
    var t := TrimLeft(s);
    var a := StripStart(s);
    var r := TrimRight(t);
    assert Strip(s) == r;
    forall i | a + |r| <= i < |s|
      ensures IsSpace(s[i])
    {
      SpaceAt(s, t, a, i);
    }
  }

  lemma SpaceAt(s: string, t: string, a: nat, i: nat)
    requires a <= i < |s| && t == s[a..]
    requires IsSpace(t[i - a])
    ensures IsSpace(s[i])
  {
    assert s[i] == t[i - a];
  }

  lemma {:induction false} TrimLeftEmpty(s: string)
    ensures TrimLeft(s) == [] <==> AllSpace(s)
  {
    if s != [] && IsSpace(s[0]) {
      TrimLeftEmpty(s[1..]);
      assert AllSpace(s) <==> AllSpace(s[1..]);
    }
  }

  lemma {:induction false} TrimRightEmpty(s: string)
    ensures TrimRight(s) == [] <==> AllSpace(s)
  {
    if s != [] && IsSpace(s[|s| - 1]) {
      TrimRightEmpty(s[..|s| - 1]);
      assert AllSpace(s) <==> AllSpace(s[..|s| - 1]);
    }
  }

  /** The shape of `' '.join(s.split())`: no leading or trailing whitespace,
      and every whitespace character is a single plain space between two
      non-whitespace characters. */
  predicate IsCollapsed(t: string) {
    && (|t| > 0 ==> !IsSpace(t[0]) && !IsSpace(t[|t| - 1]))
    && (forall i :: 0 <= i < |t| && IsSpace(t[i]) ==> t[i] == ' ')
    && (forall i :: 0 <= i < |t| - 1 && IsSpace(t[i]) ==> !IsSpace(t[i + 1]))
  }

  /** The non-whitespace characters of `s`, in order. */
  function Visible(s: string): string {
    if s == [] then []
    else (if IsSpace(s[0]) then [] else [s[0]]) + Visible(s[1..])
  }

  /** Scanner behind `Collapse`: `seen` records that a word was already
      emitted, `gap` that whitespace followed it, so the next word is
      preceded by exactly one space. */
  function Squeeze(s: string, seen: bool, gap: bool): string
    decreases |s|
  {
    if s == [] then []
    else if IsSpace(s[0]) then Squeeze(s[1..], seen, seen)
    else (if gap then " " else "") + [s[0]] + Squeeze(s[1..], true, false)
  }

  /** `s.split()`: the maximal runs of non-whitespace characters, in order.
      A visible character followed by another one joins the word that
      starts at the second. */
  function Words(s: string): (r: seq<string>)
    ensures s != [] && !IsSpace(s[0]) ==> r != []
    decreases |s|
  {
    if s == [] then []
    else if IsSpace(s[0]) then Words(s[1..])
    else if |s| == 1 || IsSpace(s[1]) then [[s[0]]] + Words(s[1..])
    else
      var ws := Words(s[1..]);
      [[s[0]] + ws[0]] + ws[1..]
  }

  /** A word of `s.split()`: non-empty, without whitespace. */
  predicate IsWord(w: string) {
    w != [] && forall j :: 0 <= j < |w| ==> !IsSpace(w[j])
  }

  /** `' '.join(ws)` */
  function JoinSpace(ws: seq<string>): string {
    if ws == [] then []
    else if |ws| == 1 then ws[0]
    else ws[0] + " " + JoinSpace(ws[1..])
  }

  /** `s.split()` returns words only, and returns none exactly when `s` is
      blank. */
  lemma {:induction false} WordsShape(s: string)
    ensures Words(s) == [] <==> AllSpace(s)
    ensures forall i :: 0 <= i < |Words(s)| ==> IsWord(Words(s)[i])
    decreases |s|
  {
    if s != [] {
      var rest := s[1..];
      WordsShape(rest);
      var ws := Words(rest);
      if IsSpace(s[0]) {
        assert AllSpace(s) <==> AllSpace(rest);
      } else if |s| == 1 || IsSpace(s[1]) {
        assert Words(s) == [[s[0]]] + ws;
        assert forall i :: 1 <= i < |Words(s)| ==> Words(s)[i] == ws[i - 1];
      } else {
        assert Words(s) == [[s[0]] + ws[0]] + ws[1..];
        assert IsWord(ws[0]);
        assert forall i :: 1 <= i < |Words(s)| ==> Words(s)[i] == ws[i];
      }
    }
  }

  /** Prefixing a character to the first word prefixes it to the join. */
  lemma JoinExtendFirst(c: char, ws: seq<string>)
    requires ws != []
    ensures JoinSpace([[c] + ws[0]] + ws[1..]) == [c] + JoinSpace(ws)
  {
    var v := [[c] + ws[0]] + ws[1..];
    assert v[1..] == ws[1..];
    if |ws| > 1 {
      assert JoinSpace(v) == ([c] + ws[0]) + " " + JoinSpace(ws[1..]);
    }
  }

  /** A visible character followed only by whitespace is the last word. */
  lemma LastWord(s: string)
    requires s != [] && !IsSpace(s[0]) && AllSpace(s[1..])
    ensures JoinSpace(Words(s)) == [s[0]]
  {
    WordsShape(s[1..]);
    assert Words(s) == [[s[0]]];
  }

  /** A visible character followed by whitespace and more words ends a word. */
  lemma WordThenGap(s: string)
    requires |s| > 1 && !IsSpace(s[0]) && IsSpace(s[1]) && !AllSpace(s[1..])
    ensures JoinSpace(Words(s)) == [s[0]] + (" " + JoinSpace(Words(s[1..])))
  {
    WordsShape(s[1..]);
    var ws := Words(s[1..]);
    assert Words(s) == [[s[0]]] + ws;
    assert ([[s[0]]] + ws)[1..] == ws;
  }

  /** A visible character followed by another one starts the next word. */
  lemma WordContinues(s: string)
    requires |s| > 1 && !IsSpace(s[0]) && !IsSpace(s[1])
    ensures JoinSpace(Words(s)) == [s[0]] + JoinSpace(Words(s[1..]))
  {
    var ws := Words(s[1..]);
    assert Words(s) == [[s[0]] + ws[0]] + ws[1..];
    JoinExtendFirst(s[0], ws);
  }

  /** What the scanner prints for `s`: the words of `s` joined by single
      spaces, with one more space in front when a word was already printed
      (`seen`) and whitespace separates it from the first word of `s`. */
  function Printed(s: string, seen: bool, gap: bool): string {
    if AllSpace(s) then []
    else (if (if s != [] && IsSpace(s[0]) then seen else gap) then " " else "") + JoinSpace(Words(s))
  }

  /** The scanner prints the words of its input joined by single spaces. */
  lemma {:induction false} SqueezeWords(s: string, seen: bool, gap: bool)
    ensures Squeeze(s, seen, gap) == Printed(s, seen, gap)
    decreases |s|, 1
  {
    if s == [] {
    } else if IsSpace(s[0]) {
      SqueezeWordsSpace(s, seen, gap);
    } else {
      SqueezeWordsVisible(s, seen, gap);
    }
  }

  lemma {:induction false} SqueezeWordsSpace(s: string, seen: bool, gap: bool)
    requires s != [] && IsSpace(s[0])
    ensures Squeeze(s, seen, gap) == Printed(s, seen, gap)
    decreases |s|, 0
  {
    var rest := s[1..];
    SqueezeWords(rest, seen, seen);
    assert AllSpace(s) <==> AllSpace(rest);
    assert Words(s) == Words(rest);
  }

  lemma {:induction false} SqueezeWordsVisible(s: string, seen: bool, gap: bool)
    requires s != [] && !IsSpace(s[0])
    ensures Squeeze(s, seen, gap) == Printed(s, seen, gap)
    decreases |s|, 0
  {
    var rest := s[1..];
    var head: string := if gap then " " else "";
    var tail := Squeeze(rest, true, false);
    assert JoinSpace(Words(s)) == [s[0]] + tail by {
      SqueezeWords(rest, true, false);
      if AllSpace(rest) {
        LastWord(s);
      } else if IsSpace(rest[0]) {
        WordThenGap(s);
      } else {
        WordContinues(s);
      }
    }
    assert Printed(s, seen, gap) == head + JoinSpace(Words(s)) by {
      assert !AllSpace(s);
    }
    assert Squeeze(s, seen, gap) == (head + [s[0]]) + tail;
    ConcatAssoc(head, [s[0]], tail);
  }

  lemma ConcatAssoc<T>(a: seq<T>, b: seq<T>, c: seq<T>)
    ensures (a + b) + c == a + (b + c)
  {
  }

  /** `' '.join(s.split())` */
  function Collapse(s: string): (r: string)
    ensures r == JoinSpace(Words(s))
    ensures IsCollapsed(r)
    ensures Visible(r) == Visible(s)
    ensures r == [] <==> AllSpace(s)
  {
    SqueezeShape(s, false, false);
    SqueezeVisible(s, false, false);
    SqueezeEmpty(s, false, false);
    SqueezeWords(s, false, false);
    WordsShape(s);
    Squeeze(s, false, false)
  }

  lemma {:induction false} VisibleAppend(a: string, b: string)
    ensures Visible(a + b) == Visible(a) + Visible(b)
  {
    if a != [] {
      var h: string := if IsSpace(a[0]) then [] else [a[0]];
      assert (a + b)[0] == a[0];
      assert (a + b)[1..] == a[1..] + b;
      VisibleAppend(a[1..], b);
      assert Visible(a + b) == h + Visible(a[1..] + b);
      assert Visible(a) == h + Visible(a[1..]);
    } else {
      assert a + b == b;
    }
  }

  lemma {:induction false} SqueezeShape(s: string, seen: bool, gap: bool)
    ensures var r := Squeeze(s, seen, gap);
      && (forall i :: 0 <= i < |r| && IsSpace(r[i]) ==> r[i] == ' ')
      && (forall i :: 0 <= i < |r| - 1 && IsSpace(r[i]) ==> !IsSpace(r[i + 1]))
      && (|r| > 0 ==> !IsSpace(r[|r| - 1]))
      && (|r| > 0 && IsSpace(r[0]) ==> gap || seen)
    decreases |s|
  {
    if s == [] {
    } else if IsSpace(s[0]) {
      SqueezeShape(s[1..], seen, seen);
    } else {
      SqueezeShape(s[1..], true, false);
      var rest := Squeeze(s[1..], true, false);
      var head: string := (if gap then " " else "") + [s[0]];
      var r := head + rest;
      assert r == Squeeze(s, seen, gap);
      forall i | 0 <= i < |r| - 1 && IsSpace(r[i])
        ensures !IsSpace(r[i + 1])
      {
        if i >= |head| {
          assert r[i] == rest[i - |head|] && r[i + 1] == rest[i + 1 - |head|];
        }
      }
      forall i | 0 <= i < |r| && IsSpace(r[i])
        ensures r[i] == ' '
      {
        if i >= |head| {
          assert r[i] == rest[i - |head|];
        }
      }
    }
  }

  lemma {:induction false} SqueezeVisible(s: string, seen: bool, gap: bool)
    ensures Visible(Squeeze(s, seen, gap)) == Visible(s)
    decreases |s|
  {
    if s == [] {
    } else if IsSpace(s[0]) {
      SqueezeVisible(s[1..], seen, seen);
    } else {
      SqueezeVisible(s[1..], true, false);
      var head: string := (if gap then " " else "") + [s[0]];
      VisibleAppend(head, Squeeze(s[1..], true, false));
      if gap {
        VisibleAppend(" ", [s[0]]);
      }
    }
  }

  lemma {:induction false} SqueezeEmpty(s: string, seen: bool, gap: bool)
    ensures Squeeze(s, seen, gap) == [] <==> AllSpace(s)
    decreases |s|
  {
    if s != [] {
      SqueezeEmpty(s[1..], if IsSpace(s[0]) then seen else true, if IsSpace(s[0]) then seen else false);
      if IsSpace(s[0]) {
        assert AllSpace(s) <==> AllSpace(s[1..]);
      }
    }
  }

  /** A collapsed string is left as it is by the scanner. */
  lemma {:induction false} SqueezeKeepsCollapsed(t: string, seen: bool)
    requires IsCollapsed(t)
    ensures Squeeze(t, seen, false) == t
    decreases |t|
  {
    if |t| > 1 {
      var u := t[1..];
      if IsSpace(t[1]) {
        var w := t[2..];
        assert |w| > 0 && !IsSpace(w[0]);
        assert IsCollapsed(w) by {
          forall i | 0 <= i < |w| - 1 && IsSpace(w[i])
            ensures !IsSpace(w[i + 1])
          {
            assert w[i] == t[i + 2] && w[i + 1] == t[i + 3];
          }
          forall i | 0 <= i < |w| && IsSpace(w[i])
            ensures w[i] == ' '
          {
            assert w[i] == t[i + 2];
          }
        }
        SqueezeKeepsCollapsed(w, true);
        assert u[1..] == w;
        assert Squeeze(u, true, false) == Squeeze(w, true, true);
        assert Squeeze(w, true, true) == " " + [w[0]] + Squeeze(w[1..], true, false);
        assert Squeeze(w, true, false) == [w[0]] + Squeeze(w[1..], true, false);
        assert t == [t[0]] + " " + w;
      } else {
        assert IsCollapsed(u) by {
          forall i | 0 <= i < |u| - 1 && IsSpace(u[i])
            ensures !IsSpace(u[i + 1])
          {
            assert u[i] == t[i + 1] && u[i + 1] == t[i + 2];
          }
          forall i | 0 <= i < |u| && IsSpace(u[i])
            ensures u[i] == ' '
          {
            assert u[i] == t[i + 1];
          }
        }
        SqueezeKeepsCollapsed(u, true);
        assert t == [t[0]] + u;
      }
    } else if |t| == 1 {
      assert t == [t[0]];
    }
  }

  /** Normalising whitespace twice is the same as normalising it once. */
  lemma CollapseIdempotent(s: string)
    ensures Collapse(Collapse(s)) == Collapse(s)
  {
    SqueezeKeepsCollapsed(Collapse(s), false);
  }

  /** A collapsed string is its own normal form. */
  lemma CollapseFixesCollapsed(t: string)
    requires IsCollapsed(t)
    ensures Collapse(t) == t
  {
    SqueezeKeepsCollapsed(t, false);
  }

  /** `c.lower()` restricted to ASCII letters. */
  function LowerChar(c: char): char {
    if 'A' <= c <= 'Z' then (c as int + 32) as char else c
  }

  /** `s.lower()` (ASCII case mapping). */
  function Lower(s: string): (r: string)
    ensures |r| == |s|
    ensures forall i :: 0 <= i < |s| ==> r[i] == LowerChar(s[i])
  {
    seq(|s|, i requires 0 <= i < |s| => LowerChar(s[i]))
  }

  /** Lower-casing works character by character, so it splits over `+`. */
  lemma {:induction false} LowerAppend(a: string, b: string)
    ensures Lower(a + b) == Lower(a) + Lower(b)
  {
    assert forall i :: 0 <= i < |a + b| ==> (a + b)[i] == if i < |a| then a[i] else b[i - |a|];
  }

  /** `sub in s` */
  predicate Contains(s: string, sub: string)
    decreases |s|
  {
    if |sub| > |s| then false
    else s[..|sub|] == sub || (s != [] && Contains(s[1..], sub))
  }

  /** `s.split(sep)[-1]`: the text after the last `sep`, or all of `s` when
      `sep` does not occur. */
  function AfterLast(s: string, sep: char): (r: string)
    ensures |r| <= |s| && r == s[|s| - |r|..]
    ensures sep !in r
    ensures |r| < |s| ==> s[|s| - |r| - 1] == sep
  {
    if s == [] then []
    else if s[|s| - 1] == sep then []
    else AfterLast(s[..|s| - 1], sep) + [s[|s| - 1]]
  }
}
