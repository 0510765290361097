/** Cutting text at a delimiter and gluing it together again (`split`, `split_once`, `find`). */
module Text {
  import opened Sequences

  /** The text before the first `c`, or all of it. */
  function Until(s: string, c: char): (r: string)
    ensures |r| <= |s| && r == s[..|r|] && c !in r
    ensures |r| < |s| ==> s[|r|] == c
  {
    if s == [] || s[0] == c then [] else [s[0]] + Until(s[1..], c)
  }

  /** The text after the first `c`. */
  function Beyond(s: string, c: char): string
    requires c in s
  {
    UntilStops(s, c);
    s[|Until(s, c)| + 1..]
  }

  lemma UntilStops(s: string, c: char)
    ensures c in s <==> |Until(s, c)| < |s|
  {
    if |Until(s, c)| == |s| {
      assert Until(s, c) == s;
    }
  }

  /** What is cut off where, is determined by the first `c`. */
  lemma {:induction false} UntilAppend(a: string, c: char, b: string)
    requires c !in a
    ensures Until(a + b, c) == a + Until(b, c)
  {
    if a == [] {
      assert a + b == b;
    } else {
      assert (a + b)[1..] == a[1..] + b;
      UntilAppend(a[1..], c, b);
    }
  }

  /** `str::split`: always one piece more than there are separators. */
  function Split(s: string, c: char): (parts: seq<string>)
    ensures parts != []
    ensures forall i | 0 <= i < |parts| :: c !in parts[i]
    decreases |s|
  {
    UntilStops(s, c);
    if c in s then [Until(s, c)] + Split(Beyond(s, c), c) else [s]
  }

  function Join(parts: seq<string>, c: char): string
  {
    if parts == [] then "" else if |parts| == 1 then parts[0] else parts[0] + [c] + Join(parts[1..], c)
  }

  lemma UntilHead(head: string, c: char, rest: string)
    requires c !in head
    ensures Until(head + [c] + rest, c) == head && Beyond(head + [c] + rest, c) == rest
  {
    var s := head + [c] + rest;
    assert s == head + ([c] + rest);
    UntilAppend(head, c, [c] + rest);
    assert Until([c] + rest, c) == [];
    assert s[|head|] == c;
  }

  lemma {:induction false} SplitJoin(parts: seq<string>, c: char)
    requires parts != [] && forall i | 0 <= i < |parts| :: c !in parts[i]
    ensures Split(Join(parts, c), c) == parts
  {
    if |parts| > 1 {
      var rest := Join(parts[1..], c);
      UntilHead(parts[0], c, rest);
      assert (parts[0] + [c] + rest)[|parts[0]|] == c;
      SplitJoin(parts[1..], c);
    }
  }

  lemma {:induction false} JoinSplit(s: string, c: char)
    ensures Join(Split(s, c), c) == s
    decreases |s|
  {
    UntilStops(s, c);
    if c in s {
      JoinSplit(Beyond(s, c), c);
      assert s == Until(s, c) + [c] + Beyond(s, c);
      assert Split(s, c)[1..] == Split(Beyond(s, c), c);
    }
  }

  lemma {:induction false} JoinOneMore(parts: seq<string>, last: string, c: char)
    ensures Join(parts + [last], c) == if parts == [] then last else Join(parts, c) + [c] + last
  {
    if |parts| == 1 {
      assert (parts + [last])[1..] == [last];
    } else if |parts| > 1 {
      assert (parts + [last])[1..] == parts[1..] + [last];
      JoinOneMore(parts[1..], last, c);
      assert parts[0] + [c] + (Join(parts[1..], c) + [c] + last) == parts[0] + [c] + Join(parts[1..], c) + [c] + last;
    }
  }

  lemma {:induction false} JoinChars(parts: seq<string>, c: char, x: char)
    requires x != c
    ensures x in Join(parts, c) <==> exists i :: 0 <= i < |parts| && x in parts[i]
  {
    if |parts| > 1 {
      JoinChars(parts[1..], c, x);
      if i :| 0 <= i < |parts| && x in parts[i] {
        assert i > 0 ==> x in parts[1..][i - 1];
      }
      if x in Join(parts[1..], c) {
        var i :| 0 <= i < |parts[1..]| && x in parts[1..][i];
        assert x in parts[i + 1];
      }
    }
  }

  /** Lines, each ended by a newline. */
  function Ended(lines: seq<string>): string
  {
    if lines == [] then "" else Ended(lines[..|lines| - 1]) + (lines[|lines| - 1] + ['\n'])
  }

  lemma {:induction false} EndedIsJoin(lines: seq<string>)
    ensures Join(lines + [""], '\n') == Ended(lines)
  {
    if lines == [] {
      assert lines + [""] == [""];
    } else {
      var front, last := lines[..|lines| - 1], lines[|lines| - 1];
      EndedIsJoin(front);
      assert lines == front + [last];
      JoinOneMore(lines, "", '\n');
      JoinOneMore(front, last, '\n');
      JoinOneMore(front, "", '\n');
      assert Ended(lines) == Ended(front) + (last + ['\n']);
      if front == [] {
        assert Ended(front) == "";
      } else {
        LastLine(Join(front, '\n'), last);
      }
    }
  }

  lemma LastLine(before: string, last: string)
    ensures before + ['\n'] + last + ['\n'] + "" == (before + ['\n'] + "") + (last + ['\n'])
  {
  }

  lemma OneEmptyMore(lines: seq<string>, c: char)
    requires forall i | 0 <= i < |lines| :: c !in lines[i]
    ensures forall i | 0 <= i < |lines + [""]| :: c !in (lines + [""])[i]
  {
  }

  /** Such a text splits into exactly those lines and an empty rest. */
  lemma SplitEnded(lines: seq<string>)
    requires forall i | 0 <= i < |lines| :: '\n' !in lines[i]
    ensures Split(Ended(lines), '\n') == lines + [""]
  {
    EndedIsJoin(lines);
    OneEmptyMore(lines, '\n');
    SplitJoin(lines + [""], '\n');
  }

  /** A field that ends at the first `c` is determined by the text. */
  lemma FieldEnds(a: string, b: string, c: char, x: string, y: string)
    requires c !in a && c !in b && a + [c] + x == b + [c] + y
    ensures a == b && x == y
  {
    UntilHead(a, c, x);
    UntilHead(b, c, y);
  }

  /** Lines, each begun by a newline. */
  function Begun(lines: seq<string>): string
  {
    if lines == [] then "" else Begun(lines[..|lines| - 1]) + (['\n'] + lines[|lines| - 1])
  }

  lemma {:induction false} BegunConcat(a: seq<string>, b: seq<string>)
    ensures Begun(a + b) == Begun(a) + Begun(b)
  {
    if b == [] {
      assert a + b == a && Begun(a) + "" == Begun(a);
    } else {
      var front := b[..|b| - 1];
      BegunConcat(a, front);
      assert (a + b)[..|a + b| - 1] == a + front;
      Regroup(Begun(a), Begun(front), ['\n'] + b[|b| - 1]);
    }
  }
}
