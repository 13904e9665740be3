/**
 * The shape check applied to a session's `ip`: the regular expression
 * `^(?:[0-9]{1,3}\.){3}[0-9]{1,3}$`, i.e. the whole string is four groups of
 * one to three ASCII digits separated by single dots. The groups are not
 * range-checked, so "999.999.999.999" has the shape.
 *
 * The recognizer `Matches` splits on dots and inspects the pieces; the
 * reference definition `RegexShape` reads the regular expression directly.
 * `MatchesIsRegexShape` proves the two agree on every string.
 */
module DottedQuad {

  predicate IsDigit(c: char) {
    '0' <= c <= '9'
  }

  /** `[0-9]{1,3}` */
  predicate IsGroup(g: string) {
    1 <= |g| <= 3 && forall i :: 0 <= i < |g| ==> IsDigit(g[i])
  }

  predicate NoDot(g: string) {
    forall i :: 0 <= i < |g| ==> g[i] != '.'
  }

  /** The pieces of `s` between dots, like JavaScript's `s.split('.')`. */
  function Split(s: string): (parts: seq<string>)
    ensures |parts| >= 1
    ensures forall k :: 0 <= k < |parts| ==> NoDot(parts[k])
  {
    if s == [] then [[]]
    else
      var rest := Split(s[1..]);
      if s[0] == '.' then [[]] + rest
      else [[s[0]] + rest[0]] + rest[1..]
  }

  /** The pieces glued back together with dots, like `parts.join('.')`. */
  function Join(parts: seq<string>): string
    requires |parts| >= 1
  {
    if |parts| == 1 then parts[0] else parts[0] + ['.'] + Join(parts[1..])
  }

  /** The recognizer: exactly four pieces, each a group of 1 to 3 digits. */
  predicate Matches(s: string) {
    var parts := Split(s);
    |parts| == 4 && forall k :: 0 <= k < 4 ==> IsGroup(parts[k])
  }

  /** The regular expression read literally: three times a group followed by
      a dot, then a final group, covering the whole string. */
  ghost predicate RegexShape(s: string) {
    exists a: string, b: string, c: string, d: string ::
      IsGroup(a) && IsGroup(b) && IsGroup(c) && IsGroup(d) &&
      s == a + ['.'] + b + ['.'] + c + ['.'] + d
  }

  /** Splitting and joining again gives back the string. */
  lemma {:induction false} JoinSplit(s: string)
    ensures Join(Split(s)) == s
  {
    if s != [] {
      JoinSplit(s[1..]);
      var rest := Split(s[1..]);
      if s[0] == '.' {
        assert Split(s) == [[]] + rest;
        assert Split(s)[1..] == rest;
      } else {
        var parts := Split(s);
        assert parts == [[s[0]] + rest[0]] + rest[1..];
        if |rest| == 1 {
          assert |parts| == 1;
        } else {
          assert parts[1..] == rest[1..];
          assert rest[0] + ['.'] + Join(rest[1..]) == Join(rest);
        }
      }
    }
  }

  /** A dot-free string followed by a dot and more text splits off as one piece. */
  lemma {:induction false} SplitAfterPiece(x: string, y: string)
    requires NoDot(x)
    ensures Split(x + ['.'] + y) == [x] + Split(y)
  {
    if x == [] {
      assert x + ['.'] + y == ['.'] + y;
      assert (['.'] + y)[1..] == y;
    } else {
      var tail := x[1..];
      assert x + ['.'] + y == [x[0]] + (tail + ['.'] + y);
      assert (x + ['.'] + y)[1..] == tail + ['.'] + y;
      SplitAfterPiece(tail, y);
      assert [x[0]] + tail == x;
    }
  }

  /** A dot-free string is a single piece. */
  lemma {:induction false} SplitNoDot(x: string)
    requires NoDot(x)
    ensures Split(x) == [x]
  {
    if x != [] {
      SplitNoDot(x[1..]);
      assert [x[0]] + x[1..] == x;
    }
  }

  /** Joining dot-free pieces and splitting again gives back the pieces. */
  lemma {:induction false} SplitJoin(parts: seq<string>)
    requires |parts| >= 1
    requires forall k :: 0 <= k < |parts| ==> NoDot(parts[k])
    ensures Split(Join(parts)) == parts
  {
    if |parts| == 1 {
      SplitNoDot(parts[0]);
    } else {
      SplitJoin(parts[1..]);
      SplitAfterPiece(parts[0], Join(parts[1..]));
      assert [parts[0]] + parts[1..] == parts;
    }
  }

  /** Four pieces join to the regular expression's layout. */
  lemma JoinFour(p: seq<string>)
    requires |p| == 4
    ensures Join(p) == p[0] + ['.'] + p[1] + ['.'] + p[2] + ['.'] + p[3]
  {
    assert p[1..][1..][1..] == [p[3]];
    assert Join(p[1..][1..]) == p[2] + ['.'] + p[3];
    assert Join(p[1..]) == p[1] + ['.'] + (p[2] + ['.'] + p[3]);
  }

  lemma GroupHasNoDot(g: string)
    requires IsGroup(g)
    ensures NoDot(g)
  {
  }

  /** The recognizer accepts exactly the strings the regular expression accepts. */
  lemma MatchesIsRegexShape(s: string)
    ensures Matches(s) <==> RegexShape(s)
  {
    if Matches(s) {
      var p := Split(s);
      JoinSplit(s);
      JoinFour(p);
    }
    if RegexShape(s) {
      var a: string, b: string, c: string, d: string :|
        IsGroup(a) && IsGroup(b) && IsGroup(c) && IsGroup(d) &&
        s == a + ['.'] + b + ['.'] + c + ['.'] + d;
      var p := [a, b, c, d];
      GroupHasNoDot(a); GroupHasNoDot(b); GroupHasNoDot(c); GroupHasNoDot(d);
      JoinFour(p);
      SplitJoin(p);
    }
  }

  /** Groups are not range-checked: an address with every part above 255 passes. */
  lemma OutOfRangeGroupsAccepted()
    ensures Matches("999.999.999.999")
  {
    var a := "999";
    assert IsGroup(a);
    assert "999.999.999.999" == a + ['.'] + a + ['.'] + a + ['.'] + a;
    MatchesIsRegexShape("999.999.999.999");
  }

  /** Three groups, five groups and a four-digit group all fail the shape. */
  lemma WrongShapesRejected()
    ensures !Matches("1.2.3")
    ensures !Matches("1.2.3.4.5")
    ensures !Matches("1234.1.1.1")
    ensures !Matches("")
  {
    SplitJoin(["1", "2", "3"]);
    assert Join(["1", "2", "3"]) == "1.2.3";
    SplitJoin(["1", "2", "3", "4", "5"]);
    assert Join(["1", "2", "3", "4", "5"]) == "1.2.3.4.5";
    SplitJoin(["1234", "1", "1", "1"]);
    assert Join(["1234", "1", "1", "1"]) == "1234.1.1.1";
  }
}
