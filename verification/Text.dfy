/** Splitting text at a separator. */
module Text {
  /** The pieces between the separators; there is always at least one. */
  function Split(s: string, sep: char): (parts: seq<string>)
    ensures |parts| >= 1
  {
    if s == "" then [""]
    else
      var rest := Split(s[1..], sep);
      if s[0] == sep then [""] + rest else [[s[0]] + rest[0]] + rest[1..]
  }

  /** Two parts are exactly the texts before and after the only separator. */
  lemma {:induction false} SplitsInTwo(s: string, sep: char)
    ensures |Split(s, sep)| == 1 ==> Split(s, sep) == [s] && sep !in s
    ensures |Split(s, sep)| == 2 ==>
      s == Split(s, sep)[0] + [sep] + Split(s, sep)[1] && sep !in Split(s, sep)[0] && sep !in Split(s, sep)[1]
  {
    if s != "" {
      SplitsInTwo(s[1..], sep);
      var rest := Split(s[1..], sep);
      assert s == [s[0]] + s[1..];
      if s[0] == sep && |Split(s, sep)| == 2 {
        assert rest == [s[1..]];
        assert s == "" + [sep] + s[1..];
      } else if |Split(s, sep)| == 2 {
        assert s == ([s[0]] + rest[0]) + [sep] + rest[1];
      }
    }
  }

  lemma {:induction false} SplitWhole(s: string, sep: char)
    requires sep !in s
    ensures Split(s, sep) == [s]
  {
    if s != "" {
      SplitWhole(s[1..], sep);
      assert s == [s[0]] + s[1..];
    }
  }

  lemma {:induction false} SplitJoined(a: string, b: string, sep: char)
    requires sep !in a && sep !in b
    ensures Split(a + [sep] + b, sep) == [a, b]
  {
    var s := a + [sep] + b;
    if a == "" {
      assert s[0] == sep && s[1..] == b;
      SplitWhole(b, sep);
      assert Split(s, sep) == [""] + Split(b, sep);
    } else {
      assert s[1..] == a[1..] + [sep] + b && s[0] == a[0];
      SplitJoined(a[1..], b, sep);
      assert [a[0]] + a[1..] == a;
    }
  }

  function Join(parts: seq<string>, sep: char): string
    requires parts != []
  {
    if |parts| == 1 then parts[0] else parts[0] + [sep] + Join(parts[1..], sep)
  }

  /** The pieces hold no separator and give the text back when they are joined. */
  lemma {:induction false} SplitJoins(s: string, sep: char)
    ensures Join(Split(s, sep), sep) == s
    ensures forall i :: 0 <= i < |Split(s, sep)| ==> sep !in Split(s, sep)[i]
  {
    if s != "" {
      SplitJoins(s[1..], sep);
      var rest, parts := Split(s[1..], sep), Split(s, sep);
      if s[0] == sep {
        assert parts[1..] == rest;
        assert s == "" + [sep] + s[1..];
      } else {
        assert parts[1..] == rest[1..];
        assert s == [s[0]] + s[1..];
        if |rest| > 1 {
          assert [s[0]] + (rest[0] + [sep] + Join(rest[1..], sep)) == [s[0]] + rest[0] + [sep] + Join(rest[1..], sep);
        }
      }
    }
  }
}
