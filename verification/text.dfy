/**
  String helpers standing in for the JavaScript built-ins the generator uses:
  `Array.prototype.join`, `String.prototype.split` on one character, `trim`,
  `toUpperCase`, `indexOf` as a substring test, and number-to-string conversion.
  All of them are restricted to ASCII.
 */
module Text {

  /** `parts.join(sep)`: the parts with `sep` between consecutive ones. */
  function Join(parts: seq<string>, sep: string): string
  {
    if |parts| == 0 then ""
    else if |parts| == 1 then parts[0]
    else parts[0] + sep + Join(parts[1..], sep)
  }

  /** Appending one part adds one separator (none when the list was empty). */
  lemma {:induction false} JoinAppend(parts: seq<string>, last: string, sep: string)
    ensures Join(parts + [last], sep) == if parts == [] then last else Join(parts, sep) + sep + last
  {
    if |parts| > 1 {
      assert (parts + [last])[1..] == parts[1..] + [last];
      JoinAppend(parts[1..], last, sep);
    } else if |parts| == 1 {
      assert (parts + [last])[1..] == [last];
    }
  }

  /** Joining a part in front of a non-empty list adds one separator. */
  lemma JoinCons(first: string, rest: seq<string>, sep: string)
    ensures Join([first] + rest, sep) == if rest == [] then first else first + sep + Join(rest, sep)
  {
    assert ([first] + rest)[1..] == rest;
  }

  /**
    Joining an optional leading term, one term and an optional trailing term
    puts one separator between each pair that is present.
   */
  lemma JoinTerms(lead: seq<string>, x: string, trail: seq<string>, sep: string)
    requires |lead| <= 1 && |trail| <= 1
    ensures Join(lead + [x] + trail, sep) ==
      (if lead == [] then "" else lead[0] + sep) + x + (if trail == [] then "" else sep + trail[0])
  {
    if lead == [] {
      assert lead + [x] + trail == [x] + trail;
      JoinTrail(x, trail, sep);
      EmptyLead(x, if trail == [] then "" else sep + trail[0]);
    } else {
      assert lead == [lead[0]];
      assert lead + [x] + trail == [lead[0]] + ([x] + trail);
      JoinLead(lead[0], x, trail, sep);
    }
  }

  lemma EmptyLead(x: string, t: string)
    ensures x + t == "" + x + t
  {
    assert "" + x == x;
  }

  /** A leading term, one term and an optional trailing term. */
  lemma JoinLead(l: string, x: string, trail: seq<string>, sep: string)
    requires |trail| <= 1
    ensures Join([l] + ([x] + trail), sep) == l + sep + x + (if trail == [] then "" else sep + trail[0])
  {
    JoinCons(l, [x] + trail, sep);
    JoinTrail(x, trail, sep);
  }

  /** One term and an optional trailing term. */
  lemma JoinTrail(x: string, trail: seq<string>, sep: string)
    requires |trail| <= 1
    ensures Join([x] + trail, sep) == x + (if trail == [] then "" else sep + trail[0])
  {
    if trail == [] {
      assert [x] + trail == [x];
    } else {
      assert ([x] + trail)[1..] == trail;
    }
  }

  /** A joined list whose first part is non-empty is non-empty. */
  lemma JoinNonEmpty(parts: seq<string>, sep: string)
    requires |parts| > 0 && parts[0] != ""
    ensures Join(parts, sep) != ""
  {
    if |parts| > 1 {
      assert |Join(parts, sep)| >= |parts[0]|;
    }
  }

  /**
    `s.split(c)`: the maximal pieces of `s` between occurrences of `c`.
    Like JavaScript, the empty string splits into one empty piece.
   */
  function Split(s: string, c: char): (pieces: seq<string>)
    ensures |pieces| >= 1
    ensures forall i :: 0 <= i < |pieces| ==> c !in pieces[i]
  {
    if |s| == 0 then [""]
    else
      var rest := Split(s[1..], c);
      if s[0] == c then [""] + rest
      else [[s[0]] + rest[0]] + rest[1..]
  }

  /** A string without the separator is a single piece. */
  lemma {:induction false} SplitWithout(s: string, c: char)
    requires c !in s
    ensures Split(s, c) == [s]
  {
    if |s| > 0 {
      SplitWithout(s[1..], c);
      assert [s[0]] + s[1..] == s;
    }
  }

  /** Splitting `a + [c] + rest` yields `a` followed by the pieces of `rest`. */
  lemma {:induction false} SplitCons(a: string, c: char, rest: string)
    requires c !in a
    ensures Split(a + [c] + rest, c) == [a] + Split(rest, c)
  {
    var s := a + [c] + rest;
    if |a| == 0 {
      assert s == [c] + rest;
      assert s[1..] == rest;
    } else {
      assert s[1..] == a[1..] + [c] + rest;
      SplitCons(a[1..], c, rest);
      assert [a[0]] + a[1..] == a;
    }
  }

  /**
    Splitting a join on the same one-character separator gives the parts back,
    provided no part contains the separator.
   */
  lemma {:induction false} SplitJoin(parts: seq<string>, c: char)
    requires |parts| >= 1
    requires forall i :: 0 <= i < |parts| ==> c !in parts[i]
    ensures Split(Join(parts, [c]), c) == parts
  {
    if |parts| == 1 {
      SplitWithout(parts[0], c);
    } else {
      SplitJoin(parts[1..], c);
      SplitCons(parts[0], c, Join(parts[1..], [c]));
      assert [parts[0]] + parts[1..] == parts;
    }
  }

  /** Joining the pieces of a split with the separator gives the original string back. */
  lemma {:induction false} JoinSplit(s: string, c: char)
    ensures Join(Split(s, c), [c]) == s
  {
    if |s| > 0 {
      JoinSplit(s[1..], c);
      var rest := Split(s[1..], c);
      if s[0] == c {
        assert Split(s, c) == [""] + rest;
        assert ([""] + rest)[1..] == rest;
        assert [c] + Join(rest, [c]) == s;
      } else {
        var first := [s[0]] + rest[0];
        assert Split(s, c) == [first] + rest[1..];
        if |rest| == 1 {
          assert Join(rest, [c]) == rest[0];
        } else {
          assert Join(rest, [c]) == rest[0] + [c] + Join(rest[1..], [c]);
          assert ([first] + rest[1..])[1..] == rest[1..];
        }
      }
    }
  }

  /** ASCII white space as `String.prototype.trim` removes it: space, tab, LF, VT, FF, CR. */
  predicate IsSpace(ch: char)
  {
    ch == ' ' || ('\t' <= ch <= '\r')
  }

  function TrimStart(s: string): (r: string)
    ensures |r| <= |s| && r == s[|s| - |r|..]
    ensures |r| > 0 ==> !IsSpace(r[0])
    ensures forall i :: 0 <= i < |s| - |r| ==> IsSpace(s[i])
  {
    if |s| > 0 && IsSpace(s[0]) then TrimStart(s[1..]) else s
  }

  function TrimEnd(s: string): (r: string)
    ensures |r| <= |s| && r == s[..|r|]
    ensures |r| > 0 ==> !IsSpace(r[|r| - 1])
    ensures forall i :: |r| <= i < |s| ==> IsSpace(s[i])
  {
    if |s| > 0 && IsSpace(s[|s| - 1]) then TrimEnd(s[..|s| - 1]) else s
  }

  /** `s.trim()`: `s` without leading and trailing white space. */
  function Trim(s: string): (r: string)
    ensures |r| <= |s|
    ensures |r| > 0 ==> !IsSpace(r[0]) && !IsSpace(r[|r| - 1])
  {
    TrimEnd(TrimStart(s))
  }

  function UpperChar(ch: char): char
  {
    if 'a' <= ch <= 'z' then (ch as int - 32) as char else ch
  }

  /** `s.toUpperCase()` on ASCII letters. */
  function ToUpper(s: string): (r: string)
    ensures |r| == |s|
    ensures forall i :: 0 <= i < |s| ==> !('a' <= r[i] <= 'z')
  {
    seq(|s|, i requires 0 <= i < |s| => UpperChar(s[i]))
  }

  /** `s.indexOf(t) !== -1`. */
  predicate Contains(s: string, t: string)
  {
    |t| <= |s| && (s[..|t|] == t || Contains(s[1..], t))
  }

  function DigitChar(d: nat): char
    requires d < 10
  {
    "0123456789"[d]
  }

  /** `String(n)` for a natural number: its decimal digits, most significant first. */
  function NatToString(n: nat): (r: string)
    ensures |r| >= 1
    ensures forall i :: 0 <= i < |r| ==> '0' <= r[i] <= '9'
  {
    if n < 10 then [DigitChar(n)] else NatToString(n / 10) + [DigitChar(n % 10)]
  }

  /** A string of `n` spaces. */
  function Spaces(n: nat): (r: string)
    ensures |r| == n
    ensures forall i :: 0 <= i < n ==> r[i] == ' '
  {
    seq(n, i => ' ')
  }
}
