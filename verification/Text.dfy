/** `strings.Join` and what can be read back from joined text. */
module Text {

  function Join(parts: seq<string>, sep: char): string {
    if parts == [] then ""
    else if |parts| == 1 then parts[0]
    else parts[0] + [sep] + Join(parts[1..], sep)
  }

  /** Text splits uniquely at the first separator. */
  lemma SplitFirst(sep: char, x: string, r: string, y: string, s: string)
    requires sep !in x && sep !in y
    requires x + [sep] + r == y + [sep] + s
    ensures x == y && r == s
  {
    var t := x + [sep] + r;
    assert t[|x|] == sep && t[|y|] == sep;
    assert forall i :: 0 <= i < |x| ==> t[i] == x[i] && x[i] != sep;
    assert forall i :: 0 <= i < |y| ==> t[i] == y[i] && y[i] != sep;
    assert t[..|x|] == x && t[..|y|] == y && t[|x| + 1..] == r && t[|y| + 1..] == s;
  }

  /** Text splits uniquely at the last separator. */
  lemma SplitLast(sep: char, x: string, r: string, y: string, s: string)
    requires sep !in r && sep !in s
    requires x + [sep] + r == y + [sep] + s
    ensures x == y && r == s
  {
    var t := x + [sep] + r;
    assert t[|x|] == sep && t[|y|] == sep;
    assert forall i :: |x| < i < |t| ==> t[i] == r[i - |x| - 1] && t[i] != sep;
    assert forall i :: |y| < i < |t| ==> t[i] == s[i - |y| - 1] && t[i] != sep;
    assert t[..|x|] == x && t[..|y|] == y && t[|x| + 1..] == r && t[|y| + 1..] == s;
  }

  lemma {:induction false} JoinFree(parts: seq<string>, sep: char, c: char)
    requires c != sep && forall p :: p in parts ==> c !in p
    ensures c !in Join(parts, sep)
  {
    if |parts| > 1 { JoinFree(parts[1..], sep, c); }
  }

  /** The same number of separator-free parts, or non-empty ones, can be read back. */
  lemma {:induction false} JoinInjective(a: seq<string>, b: seq<string>, sep: char)
    requires forall p :: p in a || p in b ==> sep !in p
    requires |a| == |b| || ((forall p :: p in a ==> p != "") && (forall p :: p in b ==> p != ""))
    requires Join(a, sep) == Join(b, sep)
    ensures a == b
  {
    JoinShape(a, sep);
    JoinShape(b, sep);
    if |a| > 1 && |b| > 1 {
      SplitFirst(sep, a[0], Join(a[1..], sep), b[0], Join(b[1..], sep));
      assert forall p :: p in a[1..] ==> p in a;
      assert forall p :: p in b[1..] ==> p in b;
      JoinInjective(a[1..], b[1..], sep);
    }
  }

  lemma JoinBreaks(parts: seq<string>, sep: char)
    requires |parts| > 1
    ensures sep in Join(parts, sep)
  {
    assert Join(parts, sep)[|parts[0]|] == sep;
  }

  /** Text joined from separator-free parts cannot be read as that many parts, or more, in
      any other way. */
  lemma {:induction false} JoinReads(a: seq<string>, b: seq<string>, sep: char)
    requires 0 < |a| <= |b| && forall p :: p in a ==> sep !in p
    requires Join(a, sep) == Join(b, sep)
    ensures a == b
  {
    if |b| == 1 {
    } else if |a| == 1 {
      JoinShape(a, sep);
      JoinBreaks(b, sep);
    } else {
      var t := Join(a, sep);
      assert t[|b[0]|] == sep && t[|a[0]|] == sep;
      assert a[0] in a && forall i :: 0 <= i < |a[0]| ==> t[i] == a[0][i] && t[i] != sep;
      assert t[|a[0]| + 1..] == Join(a[1..], sep) && t[|b[0]| + 1..] == Join(b[1..], sep);
      if |a[0]| < |b[0]| {
        // the break inside b[0] would make one part too many of what follows a[0]
        var rest := b[0][|a[0]| + 1..];
        assert [rest] + b[1..] != [] && ([rest] + b[1..])[1..] == b[1..];
        assert Join([rest] + b[1..], sep) == t[|a[0]| + 1..];
        JoinReads(a[1..], [rest] + b[1..], sep);
      } else {
        assert t[..|a[0]|] == a[0] && t[..|b[0]|] == b[0];
        JoinReads(a[1..], b[1..], sep);
      }
    }
  }

  /** A separator inside a part can be read as the boundary to the next one. */
  lemma {:induction false} JoinShift(f: seq<string>, k: nat, x: string, y: string, sep: char)
    requires k + 1 < |f| && f[k] == x + [sep] + y
    ensures Join(f[k := x][k + 1 := y + [sep] + f[k + 1]], sep) == Join(f, sep)
  {
    var g := f[k := x][k + 1 := y + [sep] + f[k + 1]];
    if k > 0 {
      assert g[1..] == f[1..][k - 1 := x][k := y + [sep] + f[k + 1]];
      JoinShift(f[1..], k - 1, x, y, sep);
    } else {
      assert f[1..][0] == f[1] && g[1..][0] == g[1];
      assert f[1..][1..] == f[2..] && g[1..][1..] == f[2..];
      if |f| == 2 {
        assert Join(f[1..], sep) == f[1] && Join(g[1..], sep) == g[1];
      } else {
        assert Join(f[1..], sep) == f[1] + [sep] + Join(f[2..], sep);
        assert Join(g[1..], sep) == g[1] + [sep] + Join(f[2..], sep);
      }
    }
  }

  lemma {:induction false} JoinSnoc(parts: seq<string>, x: string, sep: char)
    requires parts != []
    ensures Join(parts + [x], sep) == Join(parts, sep) + [sep] + x
  {
    assert (parts + [x])[1..] == parts[1..] + [x];
    if |parts| == 1 {
      assert parts[1..] + [x] == [x];
    } else {
      JoinSnoc(parts[1..], x, sep);
    }
  }

  lemma JoinShape(parts: seq<string>, sep: char)
    requires forall p :: p in parts ==> sep !in p
    ensures sep in Join(parts, sep) <==> |parts| > 1
    ensures parts != [] ==> parts[0] in parts
  {
    if |parts| > 1 { assert Join(parts, sep)[|parts[0]|] == sep; }
  }
}
