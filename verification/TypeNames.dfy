/** Names of inferred types: `_.foo_bar.baz` becomes `TypeFooBarBaz`. */
module TypeNames {

  const ROOT_PREFIX := "_"
  const TYPE_PREFIX := "Type"

  /** `strings.Split` on one character. */
  function Split(s: string, c: char): (parts: seq<string>)
    ensures |parts| > 0
    ensures forall i, j | 0 <= i < |parts| && 0 <= j < |parts[i]| :: parts[i][j] != c && parts[i][j] in s
  {
    if s == "" then [""]
    else
      var rest := Split(s[1..], c);
      if s[0] == c then [""] + rest else [[s[0]] + rest[0]] + rest[1..]
  }

  function Upper(c: char): char {
    if 'a' <= c <= 'z' then (c as int - 32) as char else c
  }

  /** The title caser on one word. */
  function Title(s: string): string {
    if s == "" then "" else [Upper(s[0])] + s[1..]
  }

  function TitleAll(subparts: seq<string>): string {
    if subparts == [] then "" else TitleAll(subparts[..|subparts| - 1]) + Title(subparts[|subparts| - 1])
  }

  function SanitizePart(part: string): string {
    if part == ROOT_PREFIX then TYPE_PREFIX else TitleAll(Split(part, '_'))
  }

  function SanitizeAll(parts: seq<string>): string {
    if parts == [] then "" else SanitizeAll(parts[..|parts| - 1]) + SanitizePart(parts[|parts| - 1])
  }

  function Sanitize(s: string): string {
    SanitizeAll(Split(s, '.'))
  }

  lemma {:induction false} TitleAllNext(subparts: seq<string>, j: nat)
    requires j < |subparts|
    ensures TitleAll(subparts[..0]) == ""
    ensures TitleAll(subparts[..j + 1]) == TitleAll(subparts[..j]) + Title(subparts[j])
  {
    assert subparts[..j + 1][..j] == subparts[..j];
  }

  lemma {:induction false} SanitizeAllNext(parts: seq<string>, i: nat)
    requires i < |parts|
    ensures SanitizeAll(parts[..0]) == ""
    ensures SanitizeAll(parts[..i + 1]) == SanitizeAll(parts[..i]) + SanitizePart(parts[i])
  {
    assert parts[..i + 1][..i] == parts[..i];
  }

  /** `sanitizeTypedef`, writing into a buffer part by part. */
  method SanitizeTypedef(s: string) returns (buf: string)
    ensures buf == Sanitize(s)
  {
    hide Split, Title, TitleAll, SanitizeAll;
    buf := "";
    var parts := Split(s, '.');
    SanitizeAllNext(parts, 0);
    for i := 0 to |parts|
      invariant buf == SanitizeAll(parts[..i])
    {
      SanitizeAllNext(parts, i);
      if parts[i] == ROOT_PREFIX {
        buf := buf + TYPE_PREFIX;
      } else {
        var subparts := Split(parts[i], '_');
        ghost var before, words := buf, "";
        TitleAllNext(subparts, 0);
        for j := 0 to |subparts|
          invariant words == TitleAll(subparts[..j]) && buf == before + words
        {
          TitleAllNext(subparts, j);
          words := words + Title(subparts[j]);
          buf := buf + Title(subparts[j]);
        }
        assert subparts[..|subparts|] == subparts;
      }
    }
    assert parts[..|parts|] == parts;
  }

  // ---------------------------------------------------------------- sanitized names are stable

  /** No separators are left. */
  ghost predicate Clean(s: string) {
    forall i | 0 <= i < |s| :: s[i] != '.' && s[i] != '_'
  }

  lemma UpperClean(c: char)
    ensures Upper(c) == c || 'A' <= Upper(c) <= 'Z'
  {}

  lemma {:induction false} TitleClean(s: string)
    requires Clean(s)
    ensures Clean(Title(s))
  {
    if s != "" {
      UpperClean(s[0]);
    }
  }

  lemma {:induction false} TitleAllClean(subparts: seq<string>)
    requires forall i | 0 <= i < |subparts| :: Clean(subparts[i])
    ensures Clean(TitleAll(subparts))
  {
    hide Title;
    if subparts != [] {
      TitleAllClean(subparts[..|subparts| - 1]);
      TitleClean(subparts[|subparts| - 1]);
    }
  }

  lemma {:induction false} SanitizeAllClean(parts: seq<string>)
    requires forall i, j | 0 <= i < |parts| && 0 <= j < |parts[i]| :: parts[i][j] != '.'
    ensures Clean(SanitizeAll(parts))
  {
    hide TitleAll, Split;
    if parts != [] {
      SanitizeAllClean(parts[..|parts| - 1]);
      TitleAllClean(Split(parts[|parts| - 1], '_'));
    }
  }

  lemma SanitizeClean(s: string)
    ensures Clean(Sanitize(s))
  {
    SanitizeAllClean(Split(s, '.'));
  }

  lemma {:induction false} SplitClean(s: string, c: char)
    requires forall i | 0 <= i < |s| :: s[i] != c
    ensures Split(s, c) == [s]
  {
    if s != "" {
      SplitClean(s[1..], c);
      assert [s[0]] + s[1..] == s;
    }
  }

  /** A name that starts with "Type" and has no separators is left as it is, so references stay keys. */
  lemma {:induction false} SanitizeFixed(s: string)
    requires Clean(s) && TYPE_PREFIX <= s
    ensures Sanitize(s) == s
  {
    SplitClean(s, '.');
    SplitClean(s, '_');
    assert SanitizeAll([s]) == SanitizeAll([]) + SanitizePart(s) by {
      assert [s][..0] == [];
    }
    assert TitleAll([s]) == TitleAll([]) + Title(s) by {
      assert [s][..0] == [];
    }
    assert s[0] == 'T' && Upper('T') == 'T';
  }

  /** Prefixes of sub-fields start with the root prefix and a dot. */
  ghost predicate SubPrefix(p: string) {
    |p| >= 2 && p[0] == '_' && p[1] == '.'
  }

  lemma {:induction false} SanitizeAllFirst(parts: seq<string>)
    requires |parts| > 0 && parts[0] == ROOT_PREFIX
    ensures TYPE_PREFIX <= SanitizeAll(parts)
  {
    hide Split, TitleAll;
    if |parts| == 1 {
      assert parts[..0] == [] && SanitizeAll(parts[..0]) == "";
    } else {
      SanitizeAllFirst(parts[..|parts| - 1]);
    }
  }

  lemma {:induction false} SanitizeSubPrefix(p: string)
    requires SubPrefix(p)
    ensures TYPE_PREFIX <= Sanitize(p)
  {
    var parts := Split(p, '.');
    assert Split(p[1..], '.') == [""] + Split(p[1..][1..], '.');
    assert parts[0] == ['_'] + "" == ROOT_PREFIX;
    SanitizeAllFirst(parts);
  }

  // ---------------------------------------------------------------- what the names are

  function Join(parts: seq<string>, c: char): string {
    if parts == [] then "" else if |parts| == 1 then parts[0] else parts[0] + [c] + Join(parts[1..], c)
  }

  ghost predicate Free(s: string, c: char) {
    forall i | 0 <= i < |s| :: s[i] != c
  }

  /** Splitting loses nothing. */
  lemma {:induction false} SplitJoin(s: string, c: char)
    ensures Join(Split(s, c), c) == s
  {
    if s != "" {
      var rest := Split(s[1..], c);
      SplitJoin(s[1..], c);
      if s[0] == c {
        assert ([""] + rest)[1..] == rest;
        assert Join([""] + rest, c) == "" + [c] + Join(rest, c);
      } else {
        var parts := [[s[0]] + rest[0]] + rest[1..];
        assert parts[1..] == rest[1..];
        if |rest| > 1 {
          assert Join(rest, c) == rest[0] + [c] + Join(rest[1..], c);
          assert Join(parts, c) == [s[0]] + Join(rest, c);
        }
      }
      assert s == [s[0]] + s[1..];
    }
  }

  lemma {:induction false} SplitFirst(w: string, rest: string, c: char)
    requires Free(w, c)
    ensures Split(w + [c] + rest, c) == [w] + Split(rest, c)
  {
    var s := w + [c] + rest;
    if w == "" {
      assert s[1..] == rest;
    } else {
      SplitFirst(w[1..], rest, c);
      assert s[1..] == w[1..] + [c] + rest;
      assert [w[0]] + w[1..] == w;
    }
  }

  /** Joined parts are found again. */
  lemma {:induction false} JoinSplit(parts: seq<string>, c: char)
    requires parts != [] && forall i | 0 <= i < |parts| :: Free(parts[i], c)
    ensures Split(Join(parts, c), c) == parts
  {
    hide Split;
    if |parts| == 1 {
      SplitClean(parts[0], c);
      assert parts == [parts[0]];
    } else {
      JoinSplit(parts[1..], c);
      SplitFirst(parts[0], Join(parts[1..], c), c);
      assert parts == [parts[0]] + parts[1..];
    }
  }

  /** The part after the last separator. */
  lemma {:induction false} SplitLast(s: string, last: string, c: char)
    requires Free(last, c)
    ensures var parts := Split(s + [c] + last, c); parts[|parts| - 1] == last
  {
    if s == "" {
      assert s + [c] + last == [c] + last && ([c] + last)[1..] == last;
      SplitClean(last, c);
    } else {
      SplitLast(s[1..], last, c);
      assert (s + [c] + last)[1..] == s[1..] + [c] + last;
      SplitLong(s[1..], last, c);
    }
  }

  lemma {:induction false} SplitLong(s: string, last: string, c: char)
    ensures |Split(s + [c] + last, c)| >= 2
  {
    if s == "" {
      assert (s + [c] + last)[1..] == last;
    } else {
      SplitLong(s[1..], last, c);
      assert (s + [c] + last)[1..] == s[1..] + [c] + last;
    }
  }

  /** The words of a path, each with its first letter in upper case, one after the other. */
  function Titles(path: seq<seq<string>>): string {
    if path == [] then "" else Titles(path[..|path| - 1]) + TitleAll(path[|path| - 1])
  }

  /** Words joined by underscores. */
  function Snake(words: seq<string>): string {
    Join(words, '_')
  }

  ghost predicate IsPath(path: seq<seq<string>>) {
    forall i | 0 <= i < |path| :: path[i] != [] && Snake(path[i]) != ROOT_PREFIX && forall w | w in path[i] :: Clean(w)
  }

  lemma {:induction false} SnakeFree(words: seq<string>)
    requires words != [] && forall w | w in words :: Clean(w)
    ensures Free(Snake(words), '.') && Split(Snake(words), '_') == words
  {
    hide Split;
    forall i | 0 <= i < |words|
      ensures Free(words[i], '_') && Free(words[i], '.')
    {
      assert words[i] in words;
    }
    JoinSplit(words, '_');
    JoinFree(words, '_', '.');
  }

  lemma {:induction false} JoinFree(parts: seq<string>, c: char, d: char)
    requires c != d && forall i | 0 <= i < |parts| :: Free(parts[i], d)
    ensures Free(Join(parts, c), d)
  {
    if |parts| > 1 {
      JoinFree(parts[1..], c, d);
    }
  }

  function Snakes(path: seq<seq<string>>): (parts: seq<string>)
    ensures |parts| == |path|
  {
    seq(|path|, i requires 0 <= i < |path| => Snake(path[i]))
  }

  lemma {:induction false} SanitizeSnakes(path: seq<seq<string>>)
    requires IsPath(path)
    ensures SanitizeAll([ROOT_PREFIX] + Snakes(path)) == TYPE_PREFIX + Titles(path)
  {
    hide Split, TitleAll, Snake;
    var parts := [ROOT_PREFIX] + Snakes(path);
    if path == [] {
      assert parts == [ROOT_PREFIX] && parts[..0] == [] && SanitizeAll(parts[..0]) == "";
      assert SanitizeAll(parts) == "" + TYPE_PREFIX;
    } else {
      var front, last := path[..|path| - 1], path[|path| - 1];
      SanitizeSnakes(front);
      assert parts[..|parts| - 1] == [ROOT_PREFIX] + Snakes(front);
      SnakeFree(last);
    }
  }

  /**
   The name of a path: `_`, then parts of words joined by underscores, all joined by dots, becomes "Type" and the
   words in title case.
   */
  lemma {:induction false} SanitizePath(path: seq<seq<string>>)
    requires IsPath(path)
    ensures Sanitize(Join([ROOT_PREFIX] + Snakes(path), '.')) == "Type" + Titles(path)
  {
    hide Split, TitleAll, Snake, Titles;
    var parts := [ROOT_PREFIX] + Snakes(path);
    forall i | 0 <= i < |parts|
      ensures Free(parts[i], '.')
    {
      if i > 0 {
        SnakeFree(path[i - 1]);
      }
    }
    JoinSplit(parts, '.');
    SanitizeSnakes(path);
  }

  /** For example. */
  lemma {:induction false} FooBarBaz()
    ensures Sanitize("_.foo_bar.baz") == "TypeFooBarBaz"
  {
    hide *;
    var path: seq<seq<string>> := [["foo", "bar"], ["baz"]];
    FooBarBazPath(path);
    SanitizePath(path);
    FooBarBazTitles(path);
  }

  lemma {:induction false} FooBarBazPath(path: seq<seq<string>>)
    requires path == [["foo", "bar"], ["baz"]]
    ensures IsPath(path) && Join([ROOT_PREFIX] + Snakes(path), '.') == "_.foo_bar.baz"
  {
    assert ["foo", "bar"][1..] == ["bar"];
    assert Snake(["foo", "bar"]) == "foo_bar" && Snake(["baz"]) == "baz";
    var parts := ["_", "foo_bar", "baz"];
    assert [ROOT_PREFIX] + Snakes(path) == parts;
    assert parts[1..] == ["foo_bar", "baz"] && parts[1..][1..] == ["baz"];
    assert Join(["foo_bar", "baz"], '.') == "foo_bar.baz";
  }

  lemma {:induction false} FooBarBazTitles(path: seq<seq<string>>)
    requires path == [["foo", "bar"], ["baz"]]
    ensures "Type" + Titles(path) == "TypeFooBarBaz"
  {
    assert Title("foo") == "Foo" && Title("bar") == "Bar" && Title("baz") == "Baz";
    assert ["foo", "bar"][..1] == ["foo"];
    assert TitleAll(["foo", "bar"]) == "FooBar" && TitleAll(["baz"]) == "Baz";
    assert path[..1] == [["foo", "bar"]];
    assert Titles(path[..1]) == "FooBar";
  }
}
