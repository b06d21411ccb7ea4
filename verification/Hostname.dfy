/**
 * Domain names (util/validation/hostname.go): the single-pass scanner
 * against the label-wise definition. A `char` stands for a byte.
 */
module Hostname {

  predicate IsLetter(c: char) {
    'a' <= c <= 'z' || 'A' <= c <= 'Z' || c == '_'
  }

  predicate IsDigit(c: char) {
    '0' <= c <= '9'
  }

  predicate IsNameChar(c: char) {
    IsLetter(c) || IsDigit(c) || c == '-'
  }

  // ---------------------------------------------------------------- labels

  /** The dot-separated parts; the empty string has one empty part. */
  function Split(s: string): (r: seq<string>)
    ensures |r| >= 1
  {
    if s == "" then [""]
    else
      var n, c := |s| - 1, s[|s| - 1];
      var r := Split(s[..n]);
      if c == '.' then r + [""] else r[..|r| - 1] + [r[|r| - 1] + [c]]
  }

  function Join(parts: seq<string>): string
    requires |parts| >= 1
  {
    if |parts| == 1 then parts[0] else Join(parts[..|parts| - 1]) + "." + parts[|parts| - 1]
  }

  /** `Split` cuts a string at its dots. */
  lemma {:induction false} SplitCuts(s: string)
    ensures Join(Split(s)) == s
    ensures forall l :: l in Split(s) ==> '.' !in l
  {
    if s != "" {
      var n, c := |s| - 1, s[|s| - 1];
      var r := Split(s[..n]);
      SplitCuts(s[..n]);
      assert s == s[..n] + [c];
      if c == '.' {
        assert (r + [""])[..|r|] == r;
        assert Join(r) + "." + "" == s;
      } else {
        var last := r[|r| - 1] + [c];
        var t := r[..|r| - 1] + [last];
        assert r[|r| - 1] in r;
        assert t[..|t| - 1] == r[..|r| - 1];
        if |r| > 1 {
          assert Join(t) == Join(r[..|r| - 1]) + "." + last == Join(r) + [c];
        }
      }
    }
  }

  /** And it is the one way to do so: dot-free parts are what their join splits into. */
  lemma {:induction false} SplitUnique(parts: seq<string>)
    requires |parts| >= 1 && forall l :: l in parts ==> '.' !in l
    ensures Split(Join(parts)) == parts
    decreases |Join(parts)|
  {
    var front, last := parts[..|parts| - 1], parts[|parts| - 1];
    var s := Join(parts);
    assert last in parts && parts == front + [last];
    if last != "" {
      var n, c := |last| - 1, last[|last| - 1];
      var shorter := front + [last[..n]];
      assert last == last[..n] + [c] && c in last;
      assert shorter[..|shorter| - 1] == front;
      assert s == Join(shorter) + [c];
      forall l | l in shorter ensures '.' !in l {
        assert l in parts || l == last[..n];
      }
      SplitUnique(shorter);
      assert s[..|s| - 1] == Join(shorter) && s[|s| - 1] == c;
    } else if |parts| > 1 {
      assert s == Join(front) + ".";
      SplitUnique(front);
      assert s[..|s| - 1] == Join(front) && s[|s| - 1] == '.';
    }
  }

  /** A trailing dot leaves an empty last part, which is not a label. */
  function Labels(s: string): seq<string> {
    var r := Split(s);
    if |r| > 1 && r[|r| - 1] == "" then r[..|r| - 1] else r
  }

  predicate LabelOk(l: string) {
    && 1 <= |l| <= 63
    && (forall i :: 0 <= i < |l| ==> IsNameChar(l[i]))
    && l[0] != '-' && l[|l| - 1] != '-'
  }

  predicate HasNonDigit(l: string) {
    exists i :: 0 <= i < |l| && !IsDigit(l[i])
  }

  predicate LengthOk(s: string) {
    1 <= |s| <= 253 || (|s| == 254 && s[253] == '.')
  }

  ghost predicate IsDomain(s: string) {
    && LengthOk(s)
    && (forall i :: 0 <= i < |Labels(s)| ==> LabelOk(Labels(s)[i]))
    && exists i :: 0 <= i < |Labels(s)| && HasNonDigit(Labels(s)[i])
  }

  // ---------------------------------------------------------------- prefixes

  /** Reading on keeps the finished parts and extends the last one. */
  lemma {:induction false} SplitExtends(s: string, i: nat)
    requires i <= |s|
    ensures var p, q := Split(s[..i]), Split(s);
            |p| <= |q| && p[..|p| - 1] == q[..|p| - 1] && p[|p| - 1] <= q[|p| - 1]
    decreases |s| - i
  {
    hide Split;
    if i == |s| {
      assert s[..i] == s;
    } else {
      SplitExtends(s, i + 1);
      SplitNext(s, i);
      var p, m, q := Split(s[..i]), Split(s[..i + 1]), Split(s);
      assert p[..|p| - 1] == m[..|p| - 1];
      assert m[..|p| - 1] == q[..|p| - 1];
      if s[i] == '.' {
        assert m[..|m| - 1] == q[..|m| - 1];
        assert p[|p| - 1] == m[|p| - 1] == m[..|m| - 1][|p| - 1] == q[..|m| - 1][|p| - 1];
      }
    }
  }

  lemma SplitNext(s: string, i: nat)
    requires i < |s|
    ensures var p, m := Split(s[..i]), Split(s[..i + 1]);
            m == if s[i] == '.' then p + [""] else p[..|p| - 1] + [p[|p| - 1] + [s[i]]]
  {
    assert s[..i + 1][..i] == s[..i];
  }

  /** A bad part of a prefix is a bad label of the whole, unless it may still grow into a good one. */
  lemma BadPart(s: string, i: nat, k: nat)
    requires i <= |s| && k < |Split(s[..i])|
    requires var l := Split(s[..i])[k];
             || (k < |Split(s[..i])| - 1 && !LabelOk(l))
             || |l| > 63
             || (l != "" && l[0] == '-')
             || (exists j :: 0 <= j < |l| && !IsNameChar(l[j]))
    ensures !IsDomain(s)
  {
    hide Split;
    SplitExtends(s, i);
    var p, q := Split(s[..i]), Split(s);
    if k < |p| - 1 {
      assert p[k] == p[..|p| - 1][k] == q[..|p| - 1][k] == q[k];
      assert Labels(s)[k] == q[k];
    } else {
      assert p[k] <= q[k];
      assert q[k] != "" && Labels(s)[k] == q[k];
      if exists j :: 0 <= j < |p[k]| && !IsNameChar(p[k][j]) {
        var j :| 0 <= j < |p[k]| && !IsNameChar(p[k][j]);
        assert q[k][j] == p[k][j];
      }
    }
    assert !LabelOk(Labels(s)[k]);
  }

  // ---------------------------------------------------------------- the scanner

  /** What the scanner's variables say about the part of the input it has seen. */
  ghost predicate Seen(s: string, i: nat, last: char, partlen: nat, nonNumeric: bool)
    requires i <= |s|
  {
    var p := Split(s[..i]);
    var cur := p[|p| - 1];
    && partlen == |cur|
    && last == (if cur == "" then '.' else cur[|cur| - 1])
    && (forall k :: 0 <= k < |p| - 1 ==> LabelOk(p[k]))
    && (forall j :: 0 <= j < |cur| ==> IsNameChar(cur[j]))
    && (cur != "" ==> cur[0] != '-')
    && (nonNumeric <==> exists k :: 0 <= k < |p| && HasNonDigit(p[k]))
  }

  lemma NonDigitAppend(l: string, c: char)
    ensures HasNonDigit(l + [c]) <==> HasNonDigit(l) || !IsDigit(c)
  {
    if HasNonDigit(l) {
      var i :| 0 <= i < |l| && !IsDigit(l[i]);
      assert (l + [c])[i] == l[i];
    }
    if !IsDigit(c) {
      assert (l + [c])[|l|] == c;
    }
  }

  /** A name character that does not start a label with a hyphen. */
  lemma SeenChar(s: string, i: nat, last: char, partlen: nat, nonNumeric: bool)
    requires i < |s| && Seen(s, i, last, partlen, nonNumeric)
    requires IsNameChar(s[i]) && (s[i] == '-' ==> last != '.')
    ensures Seen(s, i + 1, s[i], partlen + 1, nonNumeric || !IsDigit(s[i]))
  {
    hide Split;
    SplitNext(s, i);
    var p, m := Split(s[..i]), Split(s[..i + 1]);
    var n := |p| - 1;
    NonDigitAppend(p[n], s[i]);
    assert m[n] == p[n] + [s[i]] && |m| == |p| && forall k :: 0 <= k < n ==> m[k] == p[k];
    if nonNumeric {
      var k :| 0 <= k < |p| && HasNonDigit(p[k]);
      assert HasNonDigit(m[k]);
    }
    assert !IsDigit(s[i]) ==> HasNonDigit(m[n]);
    if k :| 0 <= k < |m| && HasNonDigit(m[k]) {
      assert k < n ==> HasNonDigit(p[k]);
    }
  }

  lemma SeenDot(s: string, i: nat, last: char, partlen: nat, nonNumeric: bool)
    requires i < |s| && Seen(s, i, last, partlen, nonNumeric)
    requires s[i] == '.' && last != '.' && last != '-' && partlen <= 63
    ensures Seen(s, i + 1, '.', 0, nonNumeric)
  {
    hide Split;
    SplitNext(s, i);
    var p, m := Split(s[..i]), Split(s[..i + 1]);
    assert m == p + [""] && LabelOk(p[|p| - 1]);
    if nonNumeric {
      var k :| 0 <= k < |p| && HasNonDigit(p[k]);
      assert HasNonDigit(m[k]);
    }
    if k :| 0 <= k < |m| && HasNonDigit(m[k]) {
      assert k < |p| && HasNonDigit(p[k]);
    }
  }

  lemma {:induction false} SplitNotEmpty(s: string)
    requires s != ""
    ensures Split(s) != [""]
  {
    hide Split;
    SplitCuts(s);
    assert Join([""]) == "";
  }

  lemma SeenAll(s: string, last: char, partlen: nat, nonNumeric: bool)
    requires LengthOk(s) && Seen(s, |s|, last, partlen, nonNumeric)
    ensures IsDomain(s) <==> last != '-' && partlen <= 63 && nonNumeric
  {
    hide Split;
    assert s[..|s|] == s;
    var p := Split(s);
    var n := |p| - 1;
    SplitNotEmpty(s);
    if p[n] == "" {
      assert |p| == 1 ==> p == [""];
      assert Labels(s) == p[..n];
    } else {
      assert Labels(s) == p;
    }
    if nonNumeric {
      var k :| 0 <= k < |p| && HasNonDigit(p[k]);
      assert Labels(s)[k] == p[k];
    }
    if last == '-' || partlen > 63 {
      assert Labels(s)[n] == p[n] && !LabelOk(p[n]);
    }
  }

  lemma RejectedChar(s: string, i: nat, last: char, partlen: nat, nonNumeric: bool)
    requires i < |s| && Seen(s, i, last, partlen, nonNumeric)
    requires || (s[i] != '.' && !IsNameChar(s[i]))
             || (s[i] == '-' && last == '.')
             || (s[i] == '.' && (last == '.' || last == '-' || partlen > 63))
    ensures !IsDomain(s)
  {
    hide Split;
    SplitNext(s, i);
    var p, m := Split(s[..i]), Split(s[..i + 1]);
    var n := |p| - 1;
    if s[i] != '.' {
      assert m[n] == p[n] + [s[i]];
      assert m[n][|p[n]|] == s[i];
    }
    BadPart(s, i + 1, n);
  }

  /** `IsDomainName` accepts exactly the domain names. */
  method IsDomainName(s: string) returns (ok: bool)
    ensures ok <==> IsDomain(s)
  {
    var l := |s|;
    if l == 0 || l > 254 || (l == 254 && s[l - 1] != '.') {
      return false;
    }
    var last, nonNumeric, partlen: nat := '.', false, 0;
    for i := 0 to |s|
      invariant Seen(s, i, last, partlen, nonNumeric)
    {
      hide IsDomain, Seen;
      var c := s[i];
      if IsLetter(c) {
        SeenChar(s, i, last, partlen, nonNumeric);
        nonNumeric := true;
        partlen := partlen + 1;
      } else if IsDigit(c) {
        SeenChar(s, i, last, partlen, nonNumeric);
        partlen := partlen + 1;
      } else if c == '-' {
        if last == '.' {
          RejectedChar(s, i, last, partlen, nonNumeric);
          return false;
        }
        SeenChar(s, i, last, partlen, nonNumeric);
        partlen := partlen + 1;
        nonNumeric := true;
      } else if c == '.' {
        if last == '.' || last == '-' {
          RejectedChar(s, i, last, partlen, nonNumeric);
          return false;
        }
        if partlen > 63 || partlen == 0 {
          EmptyPart(s, i, last, partlen, nonNumeric);
          RejectedChar(s, i, last, partlen, nonNumeric);
          return false;
        }
        SeenDot(s, i, last, partlen, nonNumeric);
        partlen := 0;
      } else {
        RejectedChar(s, i, last, partlen, nonNumeric);
        return false;
      }
      last := c;
    }
    SeenAll(s, last, partlen, nonNumeric);
    if last == '-' || partlen > 63 {
      return false;
    }
    ok := nonNumeric;
  }

  lemma EmptyPart(s: string, i: nat, last: char, partlen: nat, nonNumeric: bool)
    requires i <= |s| && Seen(s, i, last, partlen, nonNumeric)
    ensures partlen == 0 ==> last == '.'
  {
  }
}
