/** Ticker-symbol text handling: the directory-name normalisation used by the
    model registry and the artifact layout, the `lstrip('^')` of the fallback
    data source, and ASCII case mapping used by the web front end. */
module Tickers {
  import opened Seqs

  /** `s.replace(c, "")`: every occurrence of `c` is dropped. */
  function RemoveAll(s: string, c: char): (r: string)
    ensures c !in r
    ensures |r| <= |s|
  {
    if |s| == 0 then ""
    else (if s[0] == c then "" else [s[0]]) + RemoveAll(s[1..], c)
  }

  /** Every other character is kept, in its original order: removal is the
      order-preserving filter that drops exactly `c`. */
  lemma {:induction false} RemoveAllIsFilter(s: string, c: char)
    ensures RemoveAll(s, c) == Filter(s, x => x != c)
  {
    if |s| > 0 {
      RemoveAllIsFilter(s[1..], c);
    }
  }

  /** `s.replace(a, b)` for single characters: no `a` survives. */
  function ReplaceAll(s: string, a: char, b: char): (r: string)
    ensures |r| == |s|
    ensures forall i :: 0 <= i < |s| ==> r[i] == (if s[i] == a then b else s[i])
    ensures a != b ==> a !in r
  {
    var r := seq(|s|, i requires 0 <= i < |s| => if s[i] == a then b else s[i]);
    r
  }

  /** After a replacement the new character is present exactly when the
      old or the new one was. */
  lemma ReplacedCharacterPresent(s: string, a: char, b: char)
    ensures b in ReplaceAll(s, a, b) <==> a in s || b in s
  {
    var r := ReplaceAll(s, a, b);
    if a in s {
      var i :| 0 <= i < |s| && s[i] == a;
      assert r[i] == b;
    }
    if b in s {
      var i :| 0 <= i < |s| && s[i] == b;
      assert r[i] == b;
    }
  }

  /** `normalize_ticker`: every `^` is removed (not only a leading one) and
      every `/` becomes `_`. */
  function Normalize(ticker: string): (r: string)
    ensures '^' !in r && '/' !in r
    ensures |r| <= |ticker|
  {
    ReplaceAll(RemoveAll(ticker, '^'), '/', '_')
  }

  /** Independent, one-character-at-a-time reading of the same rule. */
  function NormalizeSymbol(c: char): string
  {
    if c == '^' then "" else if c == '/' then "_" else [c]
  }

  function NormalizeEach(ticker: string): string
  {
    if |ticker| == 0 then "" else NormalizeSymbol(ticker[0]) + NormalizeEach(ticker[1..])
  }

  /** The two-pass `replace` chain equals the per-character rule. */
  lemma {:induction false} NormalizeIsPerSymbol(ticker: string)
    ensures Normalize(ticker) == NormalizeEach(ticker)
  {
    if |ticker| > 0 {
      NormalizeIsPerSymbol(ticker[1..]);
      var head := if ticker[0] == '^' then "" else [ticker[0]];
      assert RemoveAll(ticker, '^') == head + RemoveAll(ticker[1..], '^');
      ReplaceAppend(head, RemoveAll(ticker[1..], '^'), '/', '_');
    }
  }

  lemma ReplaceAppend(a: string, b: string, x: char, y: char)
    ensures ReplaceAll(a + b, x, y) == ReplaceAll(a, x, y) + ReplaceAll(b, x, y)
  {
  }

  /** Normalisation works symbol by symbol, so it distributes over concatenation. */
  lemma {:induction false} NormalizeAppend(a: string, b: string)
    ensures Normalize(a + b) == Normalize(a) + Normalize(b)
  {
    NormalizeIsPerSymbol(a + b);
    NormalizeIsPerSymbol(a);
    NormalizeIsPerSymbol(b);
    NormalizeEachAppend(a, b);
  }

  lemma {:induction false} NormalizeEachAppend(a: string, b: string)
    ensures NormalizeEach(a + b) == NormalizeEach(a) + NormalizeEach(b)
  {
    if |a| > 0 {
      assert (a + b)[0] == a[0];
      assert (a + b)[1..] == a[1..] + b;
      NormalizeEachAppend(a[1..], b);
    } else {
      assert a + b == b;
    }
  }

  /** A ticker is left unchanged exactly when it holds neither `^` nor `/`. */
  lemma {:induction false} NormalizeFixedPoints(ticker: string)
    ensures Normalize(ticker) == ticker <==> '^' !in ticker && '/' !in ticker
  {
    NormalizeIsPerSymbol(ticker);
    if '^' !in ticker && '/' !in ticker {
      PlainIsFixed(ticker);
    }
  }

  lemma {:induction false} PlainIsFixed(ticker: string)
    requires '^' !in ticker && '/' !in ticker
    ensures NormalizeEach(ticker) == ticker
  {
    if |ticker| > 0 {
      assert ticker[0] in ticker;
      assert forall c :: c in ticker[1..] ==> c in ticker;
      PlainIsFixed(ticker[1..]);
    }
  }

  /** Normalising twice is normalising once. */
  lemma NormalizeIdempotent(ticker: string)
    ensures Normalize(Normalize(ticker)) == Normalize(ticker)
  {
    NormalizeFixedPoints(Normalize(ticker));
  }

  /** An index symbol loses its caret. */
  lemma IndexSymbolExample()
    ensures Normalize("^GSPC") == "GSPC"
  {
    assert "^GSPC" == "^" + "GSPC";
    NormalizeAppend("^", "GSPC");
    NormalizeIsPerSymbol("^");
    assert NormalizeEach("^") == "";
    NormalizeFixedPoints("GSPC");
  }

  /** A share class keeps its letter behind an underscore. */
  lemma ShareClassExample()
    ensures Normalize("BRK/B") == "BRK_B"
  {
    assert "BRK/B" == "BRK" + ("/" + "B");
    NormalizeAppend("BRK", "/" + "B");
    NormalizeAppend("/", "B");
    NormalizeIsPerSymbol("/");
    assert NormalizeEach("/") == "_";
    NormalizeFixedPoints("BRK");
    NormalizeFixedPoints("B");
  }

  /** `s.lstrip(c)`: only the leading run of `c` is removed. */
  function LStrip(s: string, c: char): (r: string)
    ensures |r| <= |s| && r == s[|s| - |r|..]
    ensures forall i :: 0 <= i < |s| - |r| ==> s[i] == c
    ensures |r| == 0 || r[0] != c
  {
    if |s| > 0 && s[0] == c then LStrip(s[1..], c) else s
  }

  /** The two carets rules agree on index symbols such as `^GSPC` ... */
  lemma LeadingCaretsAgree(carets: nat, body: string)
    requires '^' !in body && '/' !in body
    requires |body| == 0 || body[0] != '^'
    ensures var t := seq(carets, _ => '^') + body;
      Normalize(t) == body && LStrip(t, '^') == body
  {
    var t := seq(carets, _ => '^') + body;
    var stripped := LStrip(t, '^');
    assert t[|t| - |body|..] == body;
    assert stripped == body;
    NormalizeAppend(seq(carets, _ => '^'), body);
    NormalizeFixedPoints(body);
    CaretsVanish(carets);
  }

  lemma {:induction false} CaretsVanish(n: nat)
    ensures Normalize(seq(n, _ => '^')) == ""
  {
    if n > 0 {
      assert seq(n, _ => '^') == ['^'] + seq(n - 1, _ => '^');
      NormalizeAppend(['^'], seq(n - 1, _ => '^'));
      CaretsVanish(n - 1);
    }
  }

  /** ... but not on a caret inside the symbol. */
  lemma InnerCaretDisagrees()
    ensures Normalize("A^B") == "AB"
    ensures LStrip("A^B", '^') == "A^B"
  {
    NormalizeIsPerSymbol("A^B");
    assert "A^B"[1..] == "^B";
    assert "^B"[1..] == "B";
  }

  function UpperChar(c: char): char
  {
    if 'a' <= c <= 'z' then (c as int - 32) as char else c
  }

  function LowerChar(c: char): char
  {
    if 'A' <= c <= 'Z' then (c as int + 32) as char else c
  }

  /** JavaScript's `toUpperCase` on ASCII text: no lower-case letter is
      left, exactly the lower-case letters change, and the text is the same
      once case is ignored. */
  function ToUpper(s: string): (r: string)
    ensures |r| == |s|
    ensures forall i :: 0 <= i < |s| ==> r[i] == UpperChar(s[i])
    ensures forall i :: 0 <= i < |r| ==> !('a' <= r[i] <= 'z')
    ensures forall i :: 0 <= i < |s| ==> (r[i] == s[i] <==> !('a' <= s[i] <= 'z'))
    ensures ToLower(r) == ToLower(s)
  {
    seq(|s|, i requires 0 <= i < |s| => UpperChar(s[i]))
  }

  /** JavaScript's `toLowerCase` on ASCII text: no upper-case letter is
      left and exactly the upper-case letters change. */
  function ToLower(s: string): (r: string)
    ensures |r| == |s|
    ensures forall i :: 0 <= i < |s| ==> r[i] == LowerChar(s[i])
    ensures forall i :: 0 <= i < |r| ==> !('A' <= r[i] <= 'Z')
    ensures forall i :: 0 <= i < |s| ==> (r[i] == s[i] <==> !('A' <= s[i] <= 'Z'))
  {
    seq(|s|, i requires 0 <= i < |s| => LowerChar(s[i]))
  }

  /** Each case mapping is idempotent. */
  lemma CaseMappingsIdempotent(s: string)
    ensures ToUpper(ToUpper(s)) == ToUpper(s)
    ensures ToLower(ToLower(s)) == ToLower(s)
  {
  }

  predicate IsPrefix(p: string, s: string)
  {
    |p| <= |s| && s[..|p|] == p
  }

  /** `sub` occurs in `s` starting at position `i`. */
  predicate OccursAt(s: string, sub: string, i: int)
  {
    0 <= i <= |s| - |sub| && s[i..i + |sub|] == sub
  }

  /** JavaScript's `s.includes(sub)`, computed by scanning start positions. */
  function Contains(s: string, sub: string): (b: bool)
    ensures b <==> exists i :: OccursAt(s, sub, i)
  {
    if IsPrefix(sub, s) then
      assert OccursAt(s, sub, 0);
      true
    else if |s| == 0 then
      false
    else
      var b := Contains(s[1..], sub);
      assert b ==> exists i :: OccursAt(s, sub, i) by {
        if b {
          var j :| OccursAt(s[1..], sub, j);
          assert s[j + 1..j + 1 + |sub|] == s[1..][j..j + |sub|];
          assert OccursAt(s, sub, j + 1);
        }
      }
      assert (exists i :: OccursAt(s, sub, i)) ==> b by {
        if exists i :: OccursAt(s, sub, i) {
          var i :| OccursAt(s, sub, i);
          assert i != 0;
          assert s[1..][i - 1..i - 1 + |sub|] == s[i..i + |sub|];
          assert OccursAt(s[1..], sub, i - 1);
        }
      }
      b
  }
}
