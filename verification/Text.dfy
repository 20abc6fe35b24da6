/** Splitting, joining and concatenating. */
module Text {

  /** The pieces of `s` between occurrences of `sep`; the empty string has one empty piece. */
  function Split(s: string, sep: char): (parts: seq<string>)
    ensures |parts| > 0
  {
    if s == "" then
      [""]
    else
      var parts := Split(s[1..], sep);
      if s[0] == sep then [""] + parts else [[s[0]] + parts[0]] + parts[1..]
  }

  function Join(parts: seq<string>, sep: char): string {
    if |parts| == 0 then ""
    else if |parts| == 1 then parts[0]
    else parts[0] + [sep] + Join(parts[1..], sep)
  }

  lemma {:induction false} JoinSplit(s: string, sep: char)
    ensures Join(Split(s, sep), sep) == s
  {
    if s == "" {
    } else {
      JoinSplit(s[1..], sep);
      var parts := Split(s[1..], sep);
      if s[0] == sep {
        assert ([""] + parts)[1..] == parts;
        assert s == [sep] + s[1..];
      } else {
        var whole := [[s[0]] + parts[0]] + parts[1..];
        assert whole[1..] == parts[1..];
        assert s == [s[0]] + s[1..];
      }
    }
  }

  lemma {:induction false} SplitSeparates(s: string, sep: char)
    ensures forall p | p in Split(s, sep) :: sep !in p
  {
    if s == "" {
    } else {
      SplitSeparates(s[1..], sep);
      var parts := Split(s[1..], sep);
      assert parts[0] in parts;
      forall p | p in Split(s, sep) ensures sep !in p {
        assert p in parts || p == "" || (s[0] != sep && p == [s[0]] + parts[0]);
      }
    }
  }

  /** Distinct keys are distinct paths. */
  lemma {:induction false} SplitInjective(s: string, t: string, sep: char)
    requires Split(s, sep) == Split(t, sep)
    ensures s == t
  {
    JoinSplit(s, sep);
    JoinSplit(t, sep);
  }

  lemma Associate<T>(a: seq<T>, b: seq<T>, c: seq<T>)
    ensures (a + b) + c == a + (b + c)
  {
  }

  /** All sequences one after the other. */
  function Flatten<T>(parts: seq<seq<T>>): seq<T> {
    if parts == [] then [] else parts[0] + Flatten(parts[1..])
  }

  lemma {:induction false} FlattenSnoc<T>(parts: seq<seq<T>>, last: seq<T>)
    ensures Flatten(parts + [last]) == Flatten(parts) + last
  {
    if parts == [] {
      assert parts + [last] == [last] && [last][1..] == [];
    } else {
      assert (parts + [last])[1..] == parts[1..] + [last];
      FlattenSnoc(parts[1..], last);
      Associate(parts[0], Flatten(parts[1..]), last);
    }
  }
}
