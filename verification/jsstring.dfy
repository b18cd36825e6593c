/**
 * The JavaScript string built-ins the store actions and the sidebar rely on:
 * `String.prototype.replace` with a string pattern (first occurrence only),
 * `split` and `join` on a one-character separator, the decimal rendering of a
 * non-negative integer inside a template literal, and the truthiness of a
 * string that may be null.
 */
module JsString {
  import opened Wrappers

  /** `!!s` for a nullable string: null and the empty string are falsy. */
  predicate Truthy(s: Option<string>)
  {
    s.Some? && s.value != ""
  }

  /** `pat` occurs in `s` starting at index `i`. */
  predicate OccursAt(s: string, pat: string, i: nat)
  {
    i + |pat| <= |s| && s[i..i + |pat|] == pat
  }

  /** `pat` occurs nowhere in `s`. */
  ghost predicate Absent(s: string, pat: string)
  {
    forall i: nat :: !OccursAt(s, pat, i)
  }

  /** `i` is the index of the first occurrence of `pat` in `s`. */
  ghost predicate FirstAt(s: string, pat: string, i: nat)
  {
    OccursAt(s, pat, i) && forall j: nat :: j < i ==> !OccursAt(s, pat, j)
  }

  lemma OccursShift(s: string, pat: string)
    requires |s| > 0
    ensures forall i: nat :: 1 <= i ==> (OccursAt(s, pat, i) <==> OccursAt(s[1..], pat, i - 1))
  {
  }

  /** `indexOf`: the first index at which `pat` occurs in `s`, if any. */
  function IndexOf(s: string, pat: string): (r: Option<nat>)
    ensures r.Some? ==> FirstAt(s, pat, r.value)
    ensures r.None? ==> Absent(s, pat)
    decreases |s|
  {
    if |s| < |pat| then None
    else if s[..|pat|] == pat then Some(0)
    else
      OccursShift(s, pat);
      match IndexOf(s[1..], pat)
      case None => None
      case Some(i) => Some(i + 1)
  }

  /**
   * `s.replace(pat, '')`: with a string pattern JavaScript removes only the
   * FIRST occurrence; when there is none the string is returned unchanged.
   */
  function ReplaceFirst(s: string, pat: string): (r: string)
    ensures Absent(s, pat) ==> r == s
    ensures !Absent(s, pat) ==> |r| == |s| - |pat|
    ensures forall i: nat :: FirstAt(s, pat, i) ==> r == s[..i] + s[i + |pat|..]
  {
    match IndexOf(s, pat)
    case None => s
    case Some(i) => s[..i] + s[i + |pat|..]
  }

  /** `s.split(sep)`: every piece, including empty ones between adjacent separators. */
  function Split(s: string, sep: char): (r: seq<string>)
    ensures |r| >= 1
  {
    if |s| == 0 then [""]
    else
      var rest := Split(s[1..], sep);
      if s[0] == sep then [""] + rest
      else [[s[0]] + rest[0]] + rest[1..]
  }

  /** `ws.join(sep)`. */
  function Join(ws: seq<string>, sep: char): (r: string)
    ensures |ws| == 0 ==> r == ""
    ensures |ws| >= 1 ==> ws[0] <= r
    ensures |r| >= |ws| - 1
  {
    if |ws| == 0 then ""
    else if |ws| == 1 then ws[0]
    else ws[0] + [sep] + Join(ws[1..], sep)
  }

  /** No piece of a split holds the separator. */
  lemma {:induction false} SplitPiecesFree(s: string, sep: char)
    ensures forall i :: 0 <= i < |Split(s, sep)| ==> sep !in Split(s, sep)[i]
  {
    if |s| > 0 {
      SplitPiecesFree(s[1..], sep);
      var rest := Split(s[1..], sep);
      if s[0] != sep {
        var ws := [[s[0]] + rest[0]] + rest[1..];
        assert Split(s, sep) == ws;
        forall i | 0 <= i < |ws|
          ensures sep !in ws[i]
        {
          if i > 0 {
            assert ws[i] == rest[i];
          }
        }
      }
    }
  }

  /** Splitting and re-joining on the same separator gives the input back. */
  lemma {:induction false} JoinSplit(s: string, sep: char)
    ensures Join(Split(s, sep), sep) == s
  {
    if |s| > 0 {
      var rest := Split(s[1..], sep);
      JoinSplit(s[1..], sep);
      if s[0] == sep {
        assert Split(s, sep) == [""] + rest;
        assert ([""] + rest)[1..] == rest;
      } else if |rest| == 1 {
        assert Split(s, sep) == [[s[0]] + rest[0]];
        assert s == [s[0]] + s[1..];
      } else {
        var ws := [[s[0]] + rest[0]] + rest[1..];
        assert ws[1..] == rest[1..];
        assert Join(rest, sep) == rest[0] + [sep] + Join(rest[1..], sep);
        assert s == [s[0]] + s[1..];
      }
    }
  }

  /** A piece without the separator splits into itself. */
  lemma {:induction false} SplitWithoutSep(w: string, sep: char)
    requires sep !in w
    ensures Split(w, sep) == [w]
  {
    if |w| > 0 {
      SplitWithoutSep(w[1..], sep);
      assert [w[0]] + w[1..] == w;
    }
  }

  /** The inductive step of `SplitAppend` when `a` starts with the separator. */
  lemma SplitAppendStepSep(a: string, b: string, sep: char)
    requires |a| > 0 && a[0] == sep
    requires Split(a[1..] + [sep] + b, sep) == Split(a[1..], sep) + Split(b, sep)
    ensures Split(a + [sep] + b, sep) == Split(a, sep) + Split(b, sep)
  {
    var u := a + [sep] + b;
    assert u[1..] == a[1..] + [sep] + b;
    var ra, rb := Split(a[1..], sep), Split(b, sep);
    assert [""] + (ra + rb) == ([""] + ra) + rb;
  }

  /** The inductive step of `SplitAppend` when `a` starts with another character. */
  lemma SplitAppendStepOther(a: string, b: string, sep: char)
    requires |a| > 0 && a[0] != sep
    requires Split(a[1..] + [sep] + b, sep) == Split(a[1..], sep) + Split(b, sep)
    ensures Split(a + [sep] + b, sep) == Split(a, sep) + Split(b, sep)
  {
    var u := a + [sep] + b;
    assert u[1..] == a[1..] + [sep] + b;
    var ra, rb := Split(a[1..], sep), Split(b, sep);
    var h := [[a[0]] + ra[0]];
    assert (ra + rb)[0] == ra[0];
    assert (ra + rb)[1..] == ra[1..] + rb;
    assert h + (ra[1..] + rb) == (h + ra[1..]) + rb;
  }

  /** A separator between two strings splits them apart. */
  lemma {:induction false} SplitAppend(a: string, b: string, sep: char)
    ensures Split(a + [sep] + b, sep) == Split(a, sep) + Split(b, sep)
  {
    if |a| == 0 {
      var u := a + [sep] + b;
      assert u[0] == sep && u[1..] == b;
      assert Split(a, sep) == [""];
    } else {
      SplitAppend(a[1..], b, sep);
      if a[0] == sep {
        SplitAppendStepSep(a, b, sep);
      } else {
        SplitAppendStepOther(a, b, sep);
      }
    }
  }

  /** Joining pieces free of the separator and splitting again gives the pieces back. */
  lemma {:induction false} SplitJoin(ws: seq<string>, sep: char)
    requires |ws| >= 1
    requires forall i :: 0 <= i < |ws| ==> sep !in ws[i]
    ensures Split(Join(ws, sep), sep) == ws
  {
    if |ws| == 1 {
      SplitWithoutSep(ws[0], sep);
    } else {
      SplitWithoutSep(ws[0], sep);
      SplitJoin(ws[1..], sep);
      SplitAppend(ws[0], Join(ws[1..], sep), sep);
      assert [ws[0]] + ws[1..] == ws;
    }
  }

  /** Joining the first `k` pieces gives a prefix of joining them all. */
  lemma {:induction false} JoinPrefix(ws: seq<string>, k: nat, sep: char)
    requires k <= |ws|
    ensures Join(ws[..k], sep) <= Join(ws, sep)
  {
    if k == 1 {
      assert ws[..1] == [ws[0]];
    } else if k >= 2 {
      JoinPrefix(ws[1..], k - 1, sep);
      assert ws[..k][1..] == ws[1..][..k - 1];
    }
  }

  /** Whether `c` is one of the characters '0' to '9'. */
  predicate IsDigit(c: char)
  {
    '0' <= c <= '9'
  }

  function DigitChar(d: nat): (c: char)
    requires d < 10
    ensures IsDigit(c)
  {
    (48 + d) as char
  }

  /** The value of one decimal digit; 0 for any other character. */
  function DigitValue(c: char): nat
  {
    if IsDigit(c) then c as int - '0' as int else 0
  }

  /** The number a string of decimal digits denotes, most significant digit first. */
  function DecimalValue(d: string): nat
  {
    if |d| == 0 then 0 else 10 * DecimalValue(d[..|d| - 1]) + DigitValue(d[|d| - 1])
  }

  /** The decimal rendering of `n`, as a template literal prints it: digits
      that denote `n`, with no leading zero unless `n` is 0. */
  function NatToString(n: nat): (r: string)
    ensures |r| >= 1
    ensures forall c :: c in r ==> IsDigit(c)
    ensures DecimalValue(r) == n
    ensures r[0] == '0' ==> n == 0
    ensures n >= 10 ==> |r| >= 2
  {
    if n < 10 then [DigitChar(n)]
    else
      var high := NatToString(n / 10);
      var r := high + [DigitChar(n % 10)];
      assert r[..|r| - 1] == high;
      r
  }

  /** Different numbers print differently. */
  lemma NatToStringInjective(a: nat, b: nat)
    requires NatToString(a) == NatToString(b)
    ensures a == b
  {
    assert DecimalValue(NatToString(a)) == a && DecimalValue(NatToString(b)) == b;
  }
}
