/** Splitting of names, and application IDs. */
module Names {

  /** The parts of `s` between separators; the whole of it when there is none. */
  function Split(s: string, separator: char): (parts: seq<string>)
    ensures parts != []
  {
    if s == "" then [""]
    else
      var rest := Split(s[1..], separator);
      if s[0] == separator then [""] + rest else [[s[0]] + rest[0]] + rest[1..]
  }

  function Join(parts: seq<string>, separator: char): string
    requires parts != []
  {
    if |parts| == 1 then parts[0] else parts[0] + [separator] + Join(parts[1..], separator)
  }

  lemma {:induction false} JoinSplit(s: string, separator: char)
    ensures Join(Split(s, separator), separator) == s
  {
    if s != "" {
      var rest := Split(s[1..], separator);
      JoinSplit(s[1..], separator);
      if s[0] == separator {
        assert ([""] + rest)[1..] == rest;
      } else {
        assert ([[s[0]] + rest[0]] + rest[1..])[1..] == rest[1..];
        if |rest| == 1 {
          assert s == [s[0]] + s[1..];
        } else {
          assert s == [s[0]] + (rest[0] + [separator] + Join(rest[1..], separator));
        }
      }
    }
  }

  /** No part holds a separator, and every other character is in some part. */
  lemma {:induction false} SplitParts(s: string, separator: char)
    ensures forall p :: p in Split(s, separator) ==> separator !in p
    ensures forall c :: c in s && c != separator ==> exists p :: p in Split(s, separator) && c in p
  {
    if s != "" {
      SplitParts(s[1..], separator);
      var rest := Split(s[1..], separator);
      var parts := Split(s, separator);
      if s[0] == separator {
        assert parts == [""] + rest;
      } else {
        assert parts == [[s[0]] + rest[0]] + rest[1..] && s[0] in parts[0];
      }
      forall c | c in s && c != separator ensures exists p :: p in parts && c in p {
        if c != s[0] || s[0] == separator {
          assert c in s[1..];
          var p :| p in rest && c in p;
          assert rest == [rest[0]] + rest[1..];
          if s[0] != separator && p == rest[0] { assert c in parts[0]; } else { assert p in parts; }
        }
      }
    }
  }

  lemma {:induction false} SplitFirst(p: string, rest: string, separator: char)
    requires separator !in p
    ensures Split(p, separator) == [p]
    ensures Split(p + [separator] + rest, separator) == [p] + Split(rest, separator)
  {
    if p == "" {
      assert p + [separator] + rest == [separator] + rest;
    } else {
      SplitFirst(p[1..], rest, separator);
      assert (p + [separator] + rest)[1..] == p[1..] + [separator] + rest;
      assert p == [p[0]] + p[1..];
      assert ([p[1..]] + Split(rest, separator))[1..] == Split(rest, separator);
    }
  }

  /** Joined parts can be told apart again. */
  lemma {:induction false} SplitJoin(parts: seq<string>, separator: char)
    requires parts != [] && forall p :: p in parts ==> separator !in p
    ensures Split(Join(parts, separator), separator) == parts
  {
    if |parts| == 1 {
      SplitFirst(parts[0], "", separator);
    } else {
      SplitJoin(parts[1..], separator);
      SplitFirst(parts[0], Join(parts[1..], separator), separator);
      assert parts == [parts[0]] + parts[1..];
    }
  }

  lemma {:induction false} JoinOneMore(parts: seq<string>, last: string, separator: char)
    requires parts != []
    ensures Join(parts + [last], separator) == Join(parts, separator) + [separator] + last
  {
    if |parts| == 1 {
      assert (parts + [last])[1..] == [last];
    } else {
      JoinOneMore(parts[1..], last, separator);
      assert (parts + [last])[1..] == parts[1..] + [last];
      assert parts[0] + [separator] + (Join(parts[1..], separator) + [separator] + last)
          == parts[0] + [separator] + Join(parts[1..], separator) + [separator] + last;
    }
  }

  predicate IsLower(c: char) { 'a' <= c <= 'z' }
  predicate IsDigit(c: char) { '0' <= c <= '9' }

  /** Three or more parts around dots, all of lowercase letters and digits,
      and no part starting with a digit. */
  predicate IsValidAppId(id: string) {
    var parts := Split(id, '.');
    && |parts| >= 3
    && forall p :: p in parts ==> p != "" && IsLower(p[0]) && forall c :: c in p ==> IsLower(c) || IsDigit(c)
  }

  predicate IsSegment(p: string) {
    p != "" && IsLower(p[0]) && forall i :: 0 <= i < |p| ==> IsLower(p[i]) || IsDigit(p[i])
  }

  /** Joined segments are a valid ID exactly when there are three or more. */
  lemma ValidIdExactly(parts: seq<string>)
    requires parts != [] && forall p :: p in parts ==> '.' !in p
    ensures IsValidAppId(Join(parts, '.')) <==> |parts| >= 3 && forall p :: p in parts ==> IsSegment(p)
  {
    SplitJoin(parts, '.');
    forall p | p in parts ensures IsSegment(p) <==>
        p != "" && IsLower(p[0]) && forall c :: c in p ==> IsLower(c) || IsDigit(c)
    {
      if IsSegment(p) {
        forall c | c in p ensures IsLower(c) || IsDigit(c) {
          var i :| 0 <= i < |p| && p[i] == c;
        }
      }
    }
  }

  /** A valid ID is one path component and never a reserved one. */
  lemma ValidIdIsSafe(id: string)
    requires IsValidAppId(id)
    ensures id != "" && id != "." && id != ".." && '/' !in id
    ensures IsLower(id[0])
    ensures forall c :: c in id ==> IsLower(c) || IsDigit(c) || c == '.'
  {
    SplitParts(id, '.');
    var parts := Split(id, '.');
    JoinSplit(id, '.');
    assert parts[0] in parts;
    forall c | c in id ensures IsLower(c) || IsDigit(c) || c == '.' {
      if c != '.' {
        var p :| p in parts && c in p;
      }
    }
  }
}
