/**
 * Joining fields with a one-character separator (Python's `sep.join(...)`)
 * and the matching split, used to read the report format back.
 */
module Fields {

  /** The fields of `s` between occurrences of `sep`; never empty. */
  function Split(s: string, sep: char): (fs: seq<string>)
    ensures |fs| >= 1
    ensures forall i :: 0 <= i < |fs| ==> sep !in fs[i]
  {
    if s == [] then [[]]
    else
      var rest := Split(s[1..], sep);
      if s[0] == sep then [[]] + rest
      else [[s[0]] + rest[0]] + rest[1..]
  }

  /** `sep.join(fs)`. */
  function Join(fs: seq<string>, sep: char): (s: string)
    requires |fs| >= 1
    ensures |fs| == 1 ==> s == fs[0]
  {
    if |fs| == 1 then fs[0]
    else Join(fs[..|fs| - 1], sep) + [sep] + fs[|fs| - 1]
  }

  lemma JoinThree(a: string, b: string, c: string, sep: char)
    ensures Join([a, b, c], sep) == a + [sep] + b + [sep] + c
  {
    assert [a, b, c][..2] == [a, b];
    assert [a, b][..1] == [a];
  }

  /** Splitting at a separator splits the two sides independently. */
  lemma {:induction false} SplitAtSeparator(s: string, t: string, sep: char)
    ensures Split(s + [sep] + t, sep) == Split(s, sep) + Split(t, sep)
  {
    if s == [] {
      assert s + [sep] + t == [sep] + t;
      assert ([sep] + t)[1..] == t;
    } else {
      var whole := s + [sep] + t;
      assert whole[0] == s[0];
      assert whole[1..] == s[1..] + [sep] + t;
      SplitAtSeparator(s[1..], t, sep);
    }
  }

  /** A string without the separator is a single field. */
  lemma {:induction false} SplitPlain(t: string, sep: char)
    requires sep !in t
    ensures Split(t, sep) == [t]
  {
    if t != [] {
      assert sep !in t[1..] by {
        forall k | 0 <= k < |t[1..]| ensures t[1..][k] != sep {
          assert t[1..][k] == t[k + 1];
        }
      }
      SplitPlain(t[1..], sep);
      assert [t[0]] + t[1..] == t;
    }
  }

  /** Splitting what was joined gives the fields back, when no field holds the separator. */
  lemma {:induction false} SplitJoin(fs: seq<string>, sep: char)
    requires |fs| >= 1
    requires forall i :: 0 <= i < |fs| ==> sep !in fs[i]
    ensures Split(Join(fs, sep), sep) == fs
  {
    if |fs| == 1 {
      SplitPlain(fs[0], sep);
    } else {
      var init := fs[..|fs| - 1];
      SplitJoin(init, sep);
      SplitAtSeparator(Join(init, sep), fs[|fs| - 1], sep);
      SplitPlain(fs[|fs| - 1], sep);
      assert init + [fs[|fs| - 1]] == fs;
    }
  }

  /** Each string followed by the separator, concatenated: what writing one line at a time produces. */
  function Terminated(ls: seq<string>, sep: char): (s: string)
    ensures |s| >= |ls|
    ensures ls == [] <==> s == []
    ensures ls != [] ==> s[|s| - 1] == sep
  {
    if ls == [] then []
    else Terminated(ls[..|ls| - 1], sep) + ls[|ls| - 1] + [sep]
  }

  /** Writing one more line after `start` and the first `i` terminated lines. */
  lemma TerminatedPrefix(start: string, ls: seq<string>, i: nat, sep: char)
    requires i < |ls|
    ensures start + Terminated(ls[..i], sep) + ls[i] + [sep] == start + Terminated(ls[..i + 1], sep)
  {
    assert ls[..i + 1][..i] == ls[..i];
  }

  /** A first line and then terminated lines is the join of all of them, terminated once. */
  lemma {:induction false} TerminatedAsJoin(first: string, ls: seq<string>, sep: char)
    ensures first + [sep] + Terminated(ls, sep) == Join([first] + ls, sep) + [sep]
  {
    if ls != [] {
      var init, last := ls[..|ls| - 1], ls[|ls| - 1];
      TerminatedAsJoin(first, init, sep);
      var fs := [first] + ls;
      assert fs[..|fs| - 1] == [first] + init;
      var j := Join([first] + init, sep);
      calc {
        first + [sep] + Terminated(ls, sep);
        first + [sep] + (Terminated(init, sep) + last + [sep]);
        (first + [sep] + Terminated(init, sep)) + last + [sep];
        (j + [sep]) + last + [sep];
        (j + [sep] + last) + [sep];
        Join(fs, sep) + [sep];
      }
    }
  }
}
