/** Connection URLs: the stripper that hides the store's own parameters from the driver
    (src/store.rs:120-180) and the parser that reads them (src/config.rs:443-499, 667-686).
    Text is a byte string, one `char` per byte; every delimiter is ASCII. */
module UrlParams {
  import opened Wrappers
  import opened Sequences
  import opened Text
  import PD = PercentDecode

  // ---- one parameter -------------------------------------------------------------------------

  function KeyOf(pair: string): string
  {
    Until(pair, '=')
  }

  predicate IsCustom(known: seq<string>, pair: string)
  {
    KeyOf(pair) in known
  }

  /** The pairs the stripper leaves, in order. */
  function Foreign(known: seq<string>, pairs: seq<string>): (kept: seq<string>)
    ensures forall i | 0 <= i < |kept| :: kept[i] in pairs && !IsCustom(known, kept[i])
  {
    if pairs == [] then []
    else if IsCustom(known, pairs[|pairs| - 1]) then Foreign(known, pairs[..|pairs| - 1])
    else Foreign(known, pairs[..|pairs| - 1]) + [pairs[|pairs| - 1]]
  }

  // ---- the stripper --------------------------------------------------------------------------

  /** A URL as the stripper cuts it: at the first `?`, then at the first `#` after it. */
  datatype Url = NoQuery(whole: string) | Url(base: string, query: string, fragment: string)

  function Cut(url: string): Url
  {
    if '?' !in url then NoQuery(url) else
      var rest := Beyond(url, '?');
      var query := Until(rest, '#');
      Url(Until(url, '?'), query, rest[|query|..])
  }

  function Glue(base: string, query: string, fragment: string): string
  {
    if query == "" then base + fragment else base + "?" + query + fragment
  }

  function Strip(known: seq<string>, url: string): string
  {
    match Cut(url)
    case NoQuery(_) => url
    case Url(base, query, fragment) => Glue(base, Join(Foreign(known, Split(query, '&')), '&'), fragment)
  }

  /** The loop over the pairs, building the filtered query in one buffer. */
  method StripCustomParams(known: seq<string>, url: string) returns (stripped: string)
    ensures stripped == Strip(known, url)
  {
    var cut := Cut(url);
    if cut.NoQuery? {
      return url;
    }
    var pairs := Split(cut.query, '&');
    var filtered := "";
    var first := true;
    for i := 0 to |pairs|
      invariant first <==> Foreign(known, pairs[..i]) == []
      invariant filtered == Join(Foreign(known, pairs[..i]), '&')
    {
      ForeignOneMore(known, pairs, i);
      if KeyOf(pairs[i]) !in known {
        JoinOneMore(Foreign(known, pairs[..i]), pairs[i], '&');
        if !first {
          filtered := filtered + ['&'];
        }
        filtered := filtered + pairs[i];
        first := false;
      }
    }
    assert pairs[..|pairs|] == pairs;
    stripped := if filtered == "" then cut.base + cut.fragment else cut.base + "?" + filtered + cut.fragment;
  }

  lemma ForeignOneMore(known: seq<string>, pairs: seq<string>, i: nat)
    requires i < |pairs|
    ensures Foreign(known, pairs[..i + 1])
         == if IsCustom(known, pairs[i]) then Foreign(known, pairs[..i]) else Foreign(known, pairs[..i]) + [pairs[i]]
  {
    assert pairs[..i + 1][..i] == pairs[..i];
  }

  // ---- the parser ----------------------------------------------------------------------------

  /** The text the parser reads: between the first `?` and the next `?` or `#`. */
  function ParserQuery(url: string): Option<string>
  {
    if '?' !in url then None else Some(Until(Until(Beyond(url, '?'), '?'), '#'))
  }

  /** A pair the parser acts on: a known key and a value. */
  predicate Assigns(known: seq<string>, pair: string)
  {
    IsCustom(known, pair) && '=' in pair
  }

  /** The key and the still encoded value. */
  function Assignment(pair: string): (string, string)
    requires '=' in pair
  {
    (KeyOf(pair), Beyond(pair, '='))
  }

  /** The assignments in a list of pairs, in order. */
  function Assignments(known: seq<string>, pairs: seq<string>): seq<(string, string)>
  {
    if pairs == [] then [] else
      var pair := pairs[|pairs| - 1];
      Assignments(known, pairs[..|pairs| - 1]) + if Assigns(known, pair) then [Assignment(pair)] else []
  }

  /** `merge_url_params` for any meaning `assign` of the known parameters; an assignment may
      fail, which ends the merge. Everything else is at most a warning. */
  method MergeUrlParams<C>(known: seq<string>, assign: (C, string, string) -> Result<C, string>, config: C,
      url: string) returns (r: Result<C, string>)
    ensures r == Merged(assign, config, ReadBy(known, url))
  {
    r := Ok(config);
    if '?' in url {
      var pairs := Split(Until(Until(Beyond(url, '?'), '?'), '#'), '&');
      for i := 0 to |pairs|
        invariant r.Ok? && r == Merged(assign, config, Assignments(known, pairs[..i]))
      {
        OneMorePair(known, pairs, i);
        if '=' in pairs[i] && KeyOf(pairs[i]) in known {
          var value := PD.PercentDecode(Beyond(pairs[i], '='));
          MergeOneMore(assign, config, Assignments(known, pairs[..i]), Assignment(pairs[i]));
          r := assign(r.value, KeyOf(pairs[i]), value);
          if r.Err? {
            ErrorSticks(known, assign, config, pairs, i + 1);
            return;
          }
        }
      }
      assert pairs[..|pairs|] == pairs;
    }
  }

  lemma OneMorePair(known: seq<string>, pairs: seq<string>, i: nat)
    requires i < |pairs|
    ensures Assignments(known, pairs[..i + 1])
         == if Assigns(known, pairs[i]) then Assignments(known, pairs[..i]) + [Assignment(pairs[i])]
             else Assignments(known, pairs[..i])
  {
    assert pairs[..i + 1][..i] == pairs[..i];
    assert Assignments(known, pairs[..i]) + [] == Assignments(known, pairs[..i]);
  }

  /** The assignments in force, first to last; the first failure stops. */
  function Merged<C>(assign: (C, string, string) -> Result<C, string>, config: C,
      todo: seq<(string, string)>): Result<C, string>
  {
    if todo == [] then Ok(config) else
      var before := Merged(assign, config, todo[..|todo| - 1]);
      if before.Err? then before
      else assign(before.value, todo[|todo| - 1].0, PD.Decode(todo[|todo| - 1].1))
  }

  function ReadBy(known: seq<string>, url: string): seq<(string, string)>
  {
    match ParserQuery(url)
    case None => []
    case Some(query) => Assignments(known, Split(query, '&'))
  }

  lemma MergeOneMore<C>(assign: (C, string, string) -> Result<C, string>, config: C, todo: seq<(string, string)>,
      last: (string, string))
    ensures var before := Merged(assign, config, todo);
            Merged(assign, config, todo + [last]) == if before.Err? then before
                else assign(before.value, last.0, PD.Decode(last.1))
  {
    assert (todo + [last])[..|todo|] == todo;
  }

  lemma {:induction false} ErrorSticks<C>(known: seq<string>, assign: (C, string, string) -> Result<C, string>,
      config: C, pairs: seq<string>, k: nat)
    requires k <= |pairs| && Merged(assign, config, Assignments(known, pairs[..k])).Err?
    ensures Merged(assign, config, Assignments(known, pairs)) == Merged(assign, config, Assignments(known, pairs[..k]))
  {
    if k == |pairs| {
      assert pairs[..k] == pairs;
    } else {
      var front := pairs[..|pairs| - 1];
      var last := pairs[|pairs| - 1];
      assert front[..k] == pairs[..k];
      ErrorSticks(known, assign, config, front, k);
      if Assigns(known, last) {
        MergeOneMore(assign, config, Assignments(known, front), Assignment(last));
      } else {
        assert Assignments(known, pairs) == Assignments(known, front) + [] == Assignments(known, front);
      }
    }
  }

  // ---- what the stripper guarantees ------------------------------------------------------------

  /** The pieces of a cut have the shape that makes gluing them back unambiguous. */
  lemma CutShape(url: string)
    requires '?' in url
    ensures var cut := Cut(url);
            && cut.Url? && '?' !in cut.base && '#' !in cut.query
            && (cut.fragment == "" || cut.fragment[0] == '#')
            && url == cut.base + "?" + cut.query + cut.fragment
  {
    UntilStops(url, '?');
    var rest := Beyond(url, '?');
    HeadAndRest(url, Until(url, '?'), rest);
    UntilStops(rest, '#');
    var query := Until(rest, '#');
    Reassembled(url, Until(url, '?'), rest, |query|);
  }

  lemma HeadAndRest(url: string, base: string, rest: string)
    requires base < url && url[|base|] == '?' && rest == url[|base| + 1..]
    ensures url == base + "?" + rest
  {
  }

  lemma Reassembled(url: string, base: string, rest: string, k: nat)
    requires url == base + "?" + rest && k <= |rest|
    ensures url == base + "?" + rest[..k] + rest[k..]
  {
    assert rest == rest[..k] + rest[k..];
  }

  lemma CutGlue(base: string, query: string, fragment: string)
    requires '?' !in base && '#' !in query && query != "" && (fragment == "" || fragment[0] == '#')
    ensures Cut(Glue(base, query, fragment)) == Url(base, query, fragment)
  {
    var url := Glue(base, query, fragment);
    assert url == base + ['?'] + (query + fragment);
    UntilHead(base, '?', query + fragment);
    assert url[|base|] == '?';
    UntilAppend(query, '#', fragment);
    assert Until(fragment, '#') == "";
    assert (query + fragment)[|query|..] == fragment;
  }

  /** The query the stripper leaves behind. */
  function Left(known: seq<string>, url: string): string
    requires '?' in url
  {
    Join(Foreign(known, Split(Cut(url).query, '&')), '&')
  }

  lemma LeftHasNoHash(known: seq<string>, url: string)
    requires '?' in url
    ensures '#' !in Left(known, url)
  {
    var query := Cut(url).query;
    var kept := Foreign(known, Split(query, '&'));
    CutShape(url);
    JoinSplit(query, '&');
    JoinChars(Split(query, '&'), '&', '#');
    JoinChars(kept, '&', '#');
    forall i | 0 <= i < |kept| ensures '#' !in kept[i] {
      var j :| 0 <= j < |Split(query, '&')| && Split(query, '&')[j] == kept[i];
    }
  }

  /** When something is left, base and fragment survive and the new query splits into exactly
      the foreign pairs of the old one, in order. */
  lemma StripKeepsForeign(known: seq<string>, url: string)
    requires '?' in url && Left(known, url) != ""
    ensures Cut(Strip(known, url)) == Cut(url).(query := Left(known, url))
    ensures Split(Left(known, url), '&') == Foreign(known, Split(Cut(url).query, '&'))
  {
    CutShape(url);
    LeftHasNoHash(known, url);
    CutGlue(Cut(url).base, Left(known, url), Cut(url).fragment);
    SplitJoin(Foreign(known, Split(Cut(url).query, '&')), '&');
  }

  lemma {:induction false} ForeignAll(known: seq<string>, pairs: seq<string>)
    requires forall i | 0 <= i < |pairs| :: !IsCustom(known, pairs[i])
    ensures Foreign(known, pairs) == pairs
  {
    if pairs != [] {
      ForeignAll(known, pairs[..|pairs| - 1]);
    }
  }

  /** There is no query, or a non-empty one without any of the store's own parameters. */
  predicate NothingToStrip(known: seq<string>, url: string)
  {
    '?' in url ==>
      var pairs := Split(Cut(url).query, '&');
      Cut(url).query != "" && forall i | 0 <= i < |pairs| :: !IsCustom(known, pairs[i])
  }

  /** Exactly these URLs are left alone. */
  lemma StripFixpoints(known: seq<string>, url: string)
    ensures Strip(known, url) == url <==> NothingToStrip(known, url)
  {
    if '?' in url {
      var cut := Cut(url);
      var pairs := Split(cut.query, '&');
      CutShape(url);
      JoinSplit(cut.query, '&');
      if forall i | 0 <= i < |pairs| :: !IsCustom(known, pairs[i]) {
        ForeignAll(known, pairs);
      } else if Left(known, url) != "" {
        StripKeepsForeign(known, url);
      }
      assert Left(known, url) == "" ==> |Strip(known, url)| < |url|;
    }
  }

  /** Stripping twice is stripping once exactly when a foreign parameter was left, or stripping
      has nothing to take out of the fragment, which otherwise brings a query of its own into
      first position. */
  lemma StripIdempotent(known: seq<string>, url: string)
    requires '?' in url
    ensures Strip(known, Strip(known, url)) == Strip(known, url) <==>
              Left(known, url) != "" || NothingToStrip(known, Cut(url).fragment)
  {
    CutShape(url);
    if Left(known, url) != "" {
      StripKeepsForeign(known, url);
      ForeignAll(known, Foreign(known, Split(Cut(url).query, '&')));
    } else {
      BaseIsKept(known, Cut(url).base, Cut(url).fragment);
      StripFixpoints(known, Cut(url).fragment);
      SamePrefix(Cut(url).base, Strip(known, Cut(url).fragment), Cut(url).fragment);
    }
  }

  lemma CutBehindBase(base: string, rest: string)
    requires '?' !in base && '?' in rest
    ensures '?' in base + rest && Cut(rest).Url? && Cut(base + rest) == Cut(rest).(base := base + Cut(rest).base)
  {
    UntilAppend(base, '?', rest);
    UntilStops(rest, '?');
    UntilStops(base + rest, '?');
    assert Beyond(base + rest, '?') == Beyond(rest, '?');
  }

  lemma BaseIsKept(known: seq<string>, base: string, rest: string)
    requires '?' !in base
    ensures Strip(known, base + rest) == base + Strip(known, rest)
  {
    if '?' in rest {
      CutBehindBase(base, rest);
      GlueBehind(base, Cut(rest).base, Left(known, rest), Cut(rest).fragment);
    }
  }

  lemma GlueBehind(front: string, base: string, query: string, fragment: string)
    ensures Glue(front + base, query, fragment) == front + Glue(base, query, fragment)
  {
    if query != "" {
      assert front + base + "?" + query + fragment == front + (base + "?" + query + fragment);
    } else {
      assert front + base + fragment == front + (base + fragment);
    }
  }

  // ---- what the parser sees of a stripped URL ----------------------------------------------------

  /** Cutting a text short cuts its pieces short: all as before but the last, which is a prefix. */
  predicate Truncates(a: seq<string>, b: seq<string>)
  {
    0 < |a| <= |b| && (forall i | 0 <= i < |a| - 1 :: a[i] == b[i]) && a[|a| - 1] <= b[|a| - 1]
  }

  lemma TruncatesAfter(first: string, a: seq<string>, b: seq<string>)
    requires Truncates(a, b)
    ensures Truncates([first] + a, [first] + b)
  {
    var a', b' := [first] + a, [first] + b;
    forall i | 0 <= i < |a'| - 1 ensures a'[i] == b'[i] {
      assert i > 0 ==> a'[i] == a[i - 1] && b'[i] == b[i - 1];
    }
  }

  lemma {:induction false} TruncatedSplit(s: string, k: nat, c: char)
    requires k <= |s|
    ensures Truncates(Split(s[..k], c), Split(s, c))
    decreases |s|
  {
    UntilStops(s, c);
    var head := Until(s, c);
    if k <= |head| {
      assert s[..k] == head[..k];
      assert Split(s[..k], c) == [s[..k]];
      assert Split(s, c)[0] == head;
    } else {
      var rest, m := Beyond(s, c), k - |head| - 1;
      assert s == head + [c] + rest && s[..k] == head + [c] + rest[..m];
      SplitHead(head, c, rest);
      SplitHead(head, c, rest[..m]);
      TruncatedSplit(rest, m, c);
      TruncatesAfter(head, Split(rest[..m], c), Split(rest, c));
    }
  }

  lemma SplitHead(head: string, c: char, rest: string)
    requires c !in head
    ensures Split(head + [c] + rest, c) == [head] + Split(rest, c)
  {
    UntilHead(head, c, rest);
    assert (head + [c] + rest)[|head|] == c;
  }

  /** A pair cut short is either without `=` or has the key it had. */
  lemma PrefixKey(pair: string, k: nat)
    requires k <= |pair| && '=' in pair[..k]
    ensures KeyOf(pair[..k]) == KeyOf(pair)
  {
    UntilStops(pair[..k], '=');
    var key := Until(pair[..k], '=');
    assert pair == key + ['='] + pair[|key| + 1..];
    UntilHead(key, '=', pair[|key| + 1..]);
  }

  /** Nothing is assigned exactly when no pair is an assignment. */
  lemma {:induction false} NothingAssigned(known: seq<string>, pairs: seq<string>)
    ensures Assignments(known, pairs) == [] <==> forall i | 0 <= i < |pairs| :: !Assigns(known, pairs[i])
  {
    if pairs != [] {
      var front, last := pairs[..|pairs| - 1], pairs[|pairs| - 1];
      NothingAssigned(known, front);
      assert pairs == front + [last];
      if Assigns(known, last) {
        assert Assigns(known, pairs[|pairs| - 1]) && |Assignments(known, pairs)| > 0;
      } else {
        assert Assignments(known, pairs) == Assignments(known, front);
        assert forall i | 0 <= i < |front| :: front[i] == pairs[i];
      }
    }
  }

  /** What the parser reads of `base?query fragment` is the query up to a second `?`. */
  lemma ParserQueryOf(base: string, query: string, fragment: string)
    requires '?' !in base && '#' !in query && (fragment == "" || fragment[0] == '#')
    ensures ParserQuery(base + "?" + query + fragment) == Some(Until(query, '?'))
  {
    var url := base + "?" + query + fragment;
    assert url == base + ['?'] + (query + fragment);
    UntilHead(base, '?', query + fragment);
    assert url[|base|] == '?';
    if '?' in query {
      CutAtQuestion(query, fragment);
    } else {
      CutAtHash(query, fragment);
    }
  }

  lemma CutAtQuestion(query: string, fragment: string)
    requires '?' in query && '#' !in query
    ensures Until(Until(query + fragment, '?'), '#') == Until(query, '?')
  {
    UntilStops(query, '?');
    var head := Until(query, '?');
    var rest := query[|head| + 1..];
    assert query + fragment == head + ['?'] + (rest + fragment);
    UntilHead(head, '?', rest + fragment);
    WholeUntil(head, '#');
  }

  lemma CutAtHash(query: string, fragment: string)
    requires '?' !in query && '#' !in query && (fragment == "" || fragment[0] == '#')
    ensures Until(Until(query + fragment, '?'), '#') == Until(query, '?')
  {
    WholeUntil(query, '?');
    UntilAppend(query, '?', fragment);
    var tail := Until(fragment, '?');
    UntilAppend(query, '#', tail);
    assert Until(tail, '#') == "";
    assert query + "" == query;
  }

  lemma WholeUntil(s: string, c: char)
    requires c !in s
    ensures Until(s, c) == s
  {
    UntilStops(s, c);
    assert s[..|s|] == s;
  }

  /** A stripped URL assigns nothing, so merging it leaves any configuration as it is, whatever
      the parameters mean: whenever a foreign parameter was left or the fragment holds no `?`. */
  lemma StrippedUrlIsInert<C>(known: seq<string>, assign: (C, string, string) -> Result<C, string>, config: C,
      url: string)
    requires '?' in url ==> Left(known, url) != "" || '?' !in Cut(url).fragment
    ensures ReadBy(known, Strip(known, url)) == []
    ensures Merged(assign, config, ReadBy(known, Strip(known, url))) == Ok(config)
  {
    if '?' in url {
      CutShape(url);
      if Left(known, url) != "" {
        var left := Left(known, url);
        LeftHasNoHash(known, url);
        ParserQueryOf(Cut(url).base, left, Cut(url).fragment);
        StripKeepsForeign(known, url);
        TruncatedLeft(known, Split(left, '&'), left, |Until(left, '?')|);
      }
    }
  }

  lemma TruncatedLeft(known: seq<string>, kept: seq<string>, left: string, k: nat)
    requires k <= |left| && kept == Split(left, '&') && forall i | 0 <= i < |kept| :: !IsCustom(known, kept[i])
    ensures Assignments(known, Split(left[..k], '&')) == []
  {
    var seen := Split(left[..k], '&');
    TruncatedSplit(left, k, '&');
    forall i | 0 <= i < |seen| ensures !Assigns(known, seen[i]) {
      assert seen[i] == kept[i][..|seen[i]|];
      CutShort(known, kept[i], |seen[i]|);
    }
    NothingAssigned(known, seen);
  }

  lemma CutShort(known: seq<string>, pair: string, k: nat)
    requires k <= |pair| && !IsCustom(known, pair)
    ensures !Assigns(known, pair[..k])
  {
    if '=' in pair[..k] {
      PrefixKey(pair, k);
    }
  }

  /** The pair `key=v` of a known key, alone: dropped by the stripper, read by the parser. */
  lemma OnePair(known: seq<string>, key: string, v: string)
    requires key in known && PlainText(key) && PlainText(v)
    ensures var query := key + "=" + v;
            && '&' !in query && '?' !in query && '#' !in query
            && Split(query, '&') == [query]
            && Foreign(known, [query]) == [] && Assignments(known, [query]) == [(key, v)]
  {
    var query := key + "=" + v;
    assert query == key + ['='] + v && query[|key|] == '=';
    UntilHead(key, '=', v);
    assert forall i | 0 <= i < |query| :: query[i] == '=' || query[i] in key || query[i] in v;
    assert [query][..0] == [];
  }

  /** A query made of one assignment `key=v` to a known key: stripped to nothing, read as it is. */
  lemma OneAssignment(known: seq<string>, base: string, key: string, v: string, fragment: string)
    requires key in known && PlainText(key) && PlainText(v) && '?' !in base && (fragment == "" || fragment[0] == '#')
    ensures var url := base + "?" + (key + "=" + v) + fragment;
            Strip(known, url) == base + fragment && ReadBy(known, url) == [(key, v)]
  {
    OnePair(known, key, v);
    OnlyQuery(known, base, key + "=" + v, fragment);
  }

  lemma OnlyQuery(known: seq<string>, base: string, query: string, fragment: string)
    requires query != "" && '?' !in base && '&' !in query && '?' !in query && '#' !in query
             && (fragment == "" || fragment[0] == '#')
    requires Foreign(known, Split(query, '&')) == []
    ensures var url := base + "?" + query + fragment;
            Strip(known, url) == base + fragment && ReadBy(known, url) == Assignments(known, Split(query, '&'))
  {
    CutGlue(base, query, fragment);
    assert Glue(base, query, fragment)[|base|] == '?';
    ParserQueryOf(base, query, fragment);
    WholeUntil(query, '?');
  }

  /** No delimiter of the URL syntax. */
  predicate PlainText(s: string)
  {
    '&' !in s && '?' !in s && '#' !in s && '=' !in s
  }

  /** The parser finds no assignment in the URL. */
  predicate NothingToRead(known: seq<string>, url: string)
  {
    var query := ParserQuery(url);
    query.Some? ==>
      var pairs := Split(query.value, '&');
      forall i | 0 <= i < |pairs| :: !Assigns(known, pairs[i])
  }

  lemma NothingRead(known: seq<string>, url: string)
    ensures ReadBy(known, url) == [] <==> NothingToRead(known, url)
  {
    if '?' in url {
      NothingAssigned(known, Split(ParserQuery(url).value, '&'));
    }
  }

  /** A stripped URL assigns nothing exactly when something foreign was left, or the fragment,
      read as a URL, has no assignment of its own. */
  lemma StrippedInertExactly(known: seq<string>, url: string)
    requires '?' in url
    ensures ReadBy(known, Strip(known, url)) == [] <==>
            Left(known, url) != "" || NothingToRead(known, Cut(url).fragment)
  {
    CutShape(url);
    if Left(known, url) != "" {
      StrippedUrlIsInert(known, (c: int, k: string, v: string) => Ok(c), 0, url);
    } else {
      BaseIsSkipped(known, Cut(url).base, Cut(url).fragment);
      NothingRead(known, Cut(url).fragment);
    }
  }

  lemma BaseIsSkipped(known: seq<string>, base: string, rest: string)
    requires '?' !in base
    ensures ReadBy(known, base + rest) == ReadBy(known, rest)
  {
    if '?' in rest {
      UntilAppend(base, '?', rest);
      UntilStops(rest, '?');
      UntilStops(base + rest, '?');
      assert Beyond(base + rest, '?') == Beyond(rest, '?');
    }
  }

  /** In the remaining case the stripped URL is base and fragment, and the parser may find a
      query inside the fragment: such a URL has one setting stripped and a different one read
      from what is left, and stripping again removes that one too. */
  lemma FragmentQueryLeaks(known: seq<string>, base: string, key: string, v: string, w: string)
    requires key in known && PlainText(key) && PlainText(v) && PlainText(w) && '?' !in base
    ensures var url := base + "?" + (key + "=" + v) + ("#?" + (key + "=" + w));
            && ReadBy(known, url) == [(key, v)]
            && ReadBy(known, Strip(known, url)) == [(key, w)]
            && Strip(known, Strip(known, url)) != Strip(known, url)
  {
    var second := key + "=" + w;
    OneAssignment(known, base, key, v, "#?" + second);
    OneAssignment(known, base + "#", key, w, "");
    HashThenQuery(base, second);
    assert |base + "#" + ""| < |base + ("#?" + second)|;
  }

  lemma HashThenQuery(base: string, query: string)
    ensures base + ("#?" + query) == (base + "#") + "?" + query + ""
  {
  }

  /** The pairs the stripper takes out, in order. */
  function Dropped(known: seq<string>, pairs: seq<string>): seq<string>
  {
    if pairs == [] then []
    else if IsCustom(known, pairs[|pairs| - 1]) then Dropped(known, pairs[..|pairs| - 1]) + [pairs[|pairs| - 1]]
    else Dropped(known, pairs[..|pairs| - 1])
  }

  /** An assignment stands in the first pair with a `?` or behind it. */
  predicate AssignsLate(known: seq<string>, pairs: seq<string>)
  {
    exists j, i | 0 <= j <= i < |pairs| :: '?' in pairs[j] && Assigns(known, pairs[i])
  }

  /** Parser and stripper agree on what is theirs: the parser reads exactly the assignments that
      the stripper takes out if and only if no assignment stands in the first pair of the query
      with a `?` or behind it. */
  lemma ParserReadsWhatIsStripped(known: seq<string>, url: string)
    requires '?' in url
    ensures var pairs := Split(Cut(url).query, '&');
            ReadBy(known, url) == Assignments(known, Dropped(known, pairs)) <==> !AssignsLate(known, pairs)
  {
    var cut := Cut(url);
    var pairs := Split(cut.query, '&');
    CutShape(url);
    ParserQueryOf(cut.base, cut.query, cut.fragment);
    OnlyDroppedCount(known, pairs);
    JoinSplit(cut.query, '&');
    JoinChars(pairs, '&', '?');
    if '?' in cut.query {
      var f := SplitAtQuestion(cut.query);
      ReadsUpTo(known, pairs, f);
    } else {
      WholeUntil(cut.query, '?');
    }
  }

  predicate FirstQuestion(pairs: seq<string>, f: nat)
  {
    f < |pairs| && '?' in pairs[f] && forall i | 0 <= i < f :: '?' !in pairs[i]
  }

  function CutAt(pairs: seq<string>, f: nat): seq<string>
    requires f < |pairs|
  {
    pairs[..f] + [Until(pairs[f], '?')]
  }

  /** Cutting a query at its first `?` cuts short the first pair that holds one and drops the
      pairs behind it. */
  lemma {:induction false} SplitAtQuestion(query: string) returns (f: nat)
    requires '?' in query
    ensures var pairs := Split(query, '&');
            FirstQuestion(pairs, f) && Split(Until(query, '?'), '&') == CutAt(pairs, f)
    decreases |query|
  {
    UntilStops(query, '&');
    if '&' !in query {
      UntilNotIn(query, '?', '&');
      return 0;
    }
    var head, rest := Until(query, '&'), Beyond(query, '&');
    assert query == head + ['&'] + rest;
    SplitHead(head, '&', rest);
    if '?' in head {
      QuestionInHead(head, rest);
      return 0;
    }
    QuestionBehindHead(head, rest);
    f := SplitAtQuestion(rest);
    SplitHead(head, '&', Until(rest, '?'));
    OneMoreInFront(head, Split(rest, '&'), f);
    f := f + 1;
  }

  lemma QuestionInHead(head: string, rest: string)
    requires '?' in head && '&' !in head
    ensures Until(head + ['&'] + rest, '?') == Until(head, '?') && Split(Until(head, '?'), '&') == [Until(head, '?')]
  {
    assert head + ['&'] + rest == head + (['&'] + rest);
    UntilEarly(head, '?', ['&'] + rest);
    UntilNotIn(head, '?', '&');
  }

  lemma QuestionBehindHead(head: string, rest: string)
    requires '?' !in head
    ensures '?' in head + ['&'] + rest ==> '?' in rest
    ensures Until(head + ['&'] + rest, '?') == head + ['&'] + Until(rest, '?')
  {
    UntilAppend(head + ['&'], '?', rest);
  }

  lemma OneMoreInFront(first: string, pairs: seq<string>, f: nat)
    requires FirstQuestion(pairs, f) && '?' !in first
    ensures FirstQuestion([first] + pairs, f + 1)
    ensures [first] + CutAt(pairs, f) == CutAt([first] + pairs, f + 1)
  {
    var more := [first] + pairs;
    forall i | 0 <= i < f + 1 ensures '?' !in more[i] {
      assert i > 0 ==> more[i] == pairs[i - 1];
    }
  }

  lemma {:induction false} UntilEarly(a: string, c: char, b: string)
    requires c in a
    ensures Until(a + b, c) == Until(a, c)
  {
    if a[0] != c {
      assert (a + b)[1..] == a[1..] + b;
      UntilEarly(a[1..], c, b);
    }
  }

  lemma {:induction false} AssignmentsConcat(known: seq<string>, a: seq<string>, b: seq<string>)
    ensures Assignments(known, a + b) == Assignments(known, a) + Assignments(known, b)
  {
    if b == [] {
      assert a + b == a && Assignments(known, a) + [] == Assignments(known, a);
    } else {
      var n := |b| - 1;
      assert (a + b)[..|a + b| - 1] == a + b[..n];
      AssignmentsConcat(known, a, b[..n]);
    }
  }

  lemma LateMeans(known: seq<string>, pairs: seq<string>, f: nat)
    requires FirstQuestion(pairs, f)
    ensures AssignsLate(known, pairs) <==> Assignments(known, pairs[f..]) != []
  {
    var rest := pairs[f..];
    NothingAssigned(known, rest);
    if AssignsLate(known, pairs) {
      var j, i :| 0 <= j <= i < |pairs| && '?' in pairs[j] && Assigns(known, pairs[i]);
      assert Assigns(known, rest[i - f]);
    } else {
      forall i | 0 <= i < |rest| ensures !Assigns(known, rest[i]) {
        assert rest[i] == pairs[f + i];
      }
    }
  }

  lemma ReadsUpTo(known: seq<string>, pairs: seq<string>, f: nat)
    requires FirstQuestion(pairs, f)
    ensures Assignments(known, CutAt(pairs, f)) == Assignments(known, pairs) <==> !AssignsLate(known, pairs)
  {
    var short := Until(pairs[f], '?');
    assert pairs == pairs[..f] + pairs[f..];
    AssignmentsConcat(known, pairs[..f], [short]);
    AssignmentsConcat(known, pairs[..f], pairs[f..]);
    SamePrefix(Assignments(known, pairs[..f]), Assignments(known, [short]), Assignments(known, pairs[f..]));
    LateMeans(known, pairs, f);
    ShortOrNone(known, pairs[f..]);
  }

  /** Cutting the first pair short never leaves the same assignments, unless there are none. */
  lemma ShortOrNone(known: seq<string>, pairs: seq<string>)
    requires pairs != [] && '?' in pairs[0]
    ensures Assignments(known, [Until(pairs[0], '?')]) == Assignments(known, pairs) <==> Assignments(known, pairs) == []
  {
    var short := Until(pairs[0], '?');
    NothingAssigned(known, [short]);
    NothingAssigned(known, pairs);
    ShortAssigns(known, pairs[0]);
    if Assigns(known, short) {
      FirstAssignment(known, [short]);
      FirstAssignment(known, pairs);
    }
  }

  /** A pair cut at its `?` that still assigns, assigns a shorter value to the same key. */
  lemma ShortAssigns(known: seq<string>, pair: string)
    requires '?' in pair
    ensures var short := Until(pair, '?');
            Assigns(known, short) ==> Assigns(known, pair) && Assignment(short).1 != Assignment(pair).1
  {
    var short := Until(pair, '?');
    if Assigns(known, short) {
      UntilStops(pair, '?');
      PrefixKey(pair, |short|);
      UntilStops(short, '=');
      UntilStops(pair, '=');
      var n := |KeyOf(pair)| + 1;
      assert |Beyond(short, '=')| == |short| - n < |pair| - n == |Beyond(pair, '=')|;
    }
  }

  lemma {:induction false} FirstAssignment(known: seq<string>, pairs: seq<string>)
    requires pairs != [] && Assigns(known, pairs[0])
    ensures Assignments(known, pairs) != [] && Assignments(known, pairs)[0] == Assignment(pairs[0])
  {
    if |pairs| > 1 {
      FirstAssignment(known, pairs[..|pairs| - 1]);
    } else {
      assert pairs[..0] == [];
    }
  }

  /** The other case: a setting behind a foreign pair with a `?` of its own is stripped from the
      URL and read by nobody. */
  lemma SettingLost(known: seq<string>, base: string, pair: string, key: string, v: string)
    requires '?' !in base && '?' in pair && '&' !in pair && '#' !in pair && !IsCustom(known, pair)
    requires key in known && PlainText(key) && PlainText(v)
    ensures var url := base + "?" + (pair + "&" + (key + "=" + v));
            && ReadBy(known, url) == []
            && Strip(known, url) == base + "?" + pair
            && '?' in url && Dropped(known, Split(Cut(url).query, '&')) == [key + "=" + v]
  {
    var setting := key + "=" + v;
    OnePair(known, key, v);
    KeyOfSetting(key, v);
    TwoPairs(known, pair, setting);
    ReadsOnlyShort(known, base, pair, setting);
    CutPlain(base, pair + "&" + setting);
  }

  lemma KeyOfSetting(key: string, v: string)
    requires PlainText(key)
    ensures KeyOf(key + "=" + v) == key
  {
    assert key + "=" + v == key + ['='] + v;
    UntilHead(key, '=', v);
  }

  /** A URL without a fragment. */
  lemma CutPlain(base: string, query: string)
    requires '?' !in base && '#' !in query && query != ""
    ensures '?' in base + "?" + query && Cut(base + "?" + query) == Url(base, query, "")
  {
    CutGlue(base, query, "");
    assert base + "?" + query == Glue(base, query, "");
    assert (base + "?" + query)[|base|] == '?';
  }

  /** A foreign pair and one of the store's own. */
  lemma TwoPairs(known: seq<string>, pair: string, setting: string)
    requires '&' !in pair && '&' !in setting && !IsCustom(known, pair) && IsCustom(known, setting)
    ensures Split(pair + "&" + setting, '&') == [pair, setting]
    ensures Foreign(known, [pair, setting]) == [pair] && Dropped(known, [pair, setting]) == [setting]
  {
    assert pair + "&" + setting == pair + ['&'] + setting;
    SplitHead(pair, '&', setting);
    var both := [pair, setting];
    assert both[..|both| - 1] == [pair] && [pair][..|[pair]| - 1] == [];
    assert Foreign(known, [pair]) == Foreign(known, []) + [pair] == [pair];
    assert Dropped(known, [pair]) == Dropped(known, []) == [];
  }

  lemma ReadsOnlyShort(known: seq<string>, base: string, pair: string, setting: string)
    requires '?' !in base && '?' in pair && '&' !in pair && '#' !in pair && '#' !in setting && !IsCustom(known, pair)
    ensures ReadBy(known, base + "?" + (pair + "&" + setting)) == []
  {
    var query := pair + "&" + setting;
    var short := Until(pair, '?');
    assert query == pair + ("&" + setting);
    ParserQueryOf(base, query, "");
    assert base + "?" + query + "" == base + "?" + query;
    UntilEarly(pair, '?', "&" + setting);
    UntilNotIn(pair, '?', '&');
    ShortIsForeign(known, pair);
    NothingAssigned(known, [short]);
    assert Split(short, '&') == [short];
    assert (base + "?" + query)[|base|] == '?';
  }

  lemma UntilNotIn(s: string, c: char, d: char)
    requires d !in s
    ensures d !in Until(s, c)
  {
  }

  lemma ShortIsForeign(known: seq<string>, pair: string)
    requires '?' in pair && !IsCustom(known, pair)
    ensures !Assigns(known, Until(pair, '?'))
  {
    var short := Until(pair, '?');
    if '=' in short {
      PrefixKey(pair, |short|);
    }
  }

  lemma {:induction false} OnlyDroppedCount(known: seq<string>, pairs: seq<string>)
    ensures Assignments(known, pairs) == Assignments(known, Dropped(known, pairs))
  {
    if pairs != [] {
      var front := pairs[..|pairs| - 1];
      OnlyDroppedCount(known, front);
      var last := pairs[|pairs| - 1];
      assert (Dropped(known, front) + [last])[..|Dropped(known, front)|] == Dropped(known, front);
    }
  }

  /** The parameters the store keeps to itself: the list appears twice in the source, once for
      the stripper and once for the parser. All of the above holds for any such list. */
  const CUSTOM_PARAMS: seq<string> := [
    "max_connections", "min_connections", "max_lifetime", "auto_create_table", "table_name",
    "isolation_level", "persistent_statements", "connect_timeout", "idle_timeout",
    "slow_acquire_threshold_secs", "slow_statements_threshold_secs", "pooler", "hash_partitions"]

  /** Each of the store's own settings is taken out of the URL, and read from it. */
  lemma OwnSettings(base: string, key: string, v: string)
    requires key in ["max_connections", "min_connections", "max_lifetime", "auto_create_table", "table_name",
                     "isolation_level", "persistent_statements", "connect_timeout", "idle_timeout",
                     "slow_acquire_threshold_secs", "slow_statements_threshold_secs", "pooler", "hash_partitions"]
    requires PlainText(key) && PlainText(v) && '?' !in base
    ensures var url := base + "?" + (key + "=" + v);
            Strip(CUSTOM_PARAMS, url) == base && ReadBy(CUSTOM_PARAMS, url) == [(key, v)]
  {
    OneAssignment(CUSTOM_PARAMS, base, key, v, "");
    assert base + "?" + (key + "=" + v) + "" == base + "?" + (key + "=" + v) && base + "" == base;
  }

  /** Assignments take effect in the order of the URL; the first that fails ends the merge. */
  lemma InOrder<C>(assign: (C, string, string) -> Result<C, string>, config: C,
                   first: (string, string), second: (string, string))
    ensures Merged(assign, config, [first]) == assign(config, first.0, PD.Decode(first.1))
    ensures Merged(assign, config, [first, second])
         == match assign(config, first.0, PD.Decode(first.1))
            case Err(e) => Err(e)
            case Ok(one) => assign(one, second.0, PD.Decode(second.1))
  {
    MergeOneMore(assign, config, [], first);
    MergeOneMore(assign, config, [first], second);
    assert [] + [first] == [first] && [first] + [second] == [first, second];
  }

  /** The stripper and the parser as the store runs them. */
  lemma StoreUrls<C>(assign: (C, string, string) -> Result<C, string>, config: C, url: string)
    requires '?' in url ==> '?' !in Cut(url).fragment
    ensures Merged(assign, config, ReadBy(CUSTOM_PARAMS, Strip(CUSTOM_PARAMS, url))) == Ok(config)
    ensures Strip(CUSTOM_PARAMS, Strip(CUSTOM_PARAMS, url)) == Strip(CUSTOM_PARAMS, url)
  {
    StrippedUrlIsInert(CUSTOM_PARAMS, assign, config, url);
    if '?' in url {
      StripIdempotent(CUSTOM_PARAMS, url);
    }
  }
}
