/** The directory-tree printer (`tree.py`). The file system is a tree value:
    a directory knows whether it may be listed and what it holds. Printing
    is the sequence of lines written, in order. */
module Tree {
  import opened Common

  /** A file-system entry: a directory, which may refuse to be listed, or
      anything else. */
  datatype Entry = Dir(name: string, readable: bool, children: seq<Entry>) | File(name: string)

  const BRANCH := "├── "
  const LAST_BRANCH := "└── "
  const PIPE_EXTENSION := "│   "
  const BLANK_EXTENSION := "    "
  const ACCESS_DENIED := "[Доступ запрещен]"

  /** The command-line defaults of `main`. */
  const DEFAULT_PATH := "."
  const DEFAULT_MAX_DEPTH := 3

  /** The first character of every line below a given prefix. */
  predicate IsTreeMark(c: char) {
    c == '├' || c == '└' || c == '│' || c == ' '
  }

  /** The connector of child `i` out of `n`: the last one closes the branch. */
  function Connector(i: int, n: int): string {
    if i == n - 1 then LAST_BRANCH else BRANCH
  }

  /** Lower-casing, for the letters A to Z. */
  function LowerChar(c: char): char {
    if 'A' <= c <= 'Z' then (c as int + 32) as char else c
  }

  function Lower(s: string): (r: string)
    ensures |r| == |s| && forall i :: 0 <= i < |s| ==> r[i] == LowerChar(s[i])
  {
    seq(|s|, i requires 0 <= i < |s| => LowerChar(s[i]))
  }

  /** The sort key of `contents.sort`: the lower-cased name. */
  predicate NameLe(a: Entry, b: Entry) {
    LexLe(Lower(a.name), Lower(b.name))
  }

  predicate SortedByName(s: seq<Entry>) {
    forall i, j :: 0 <= i < j < |s| ==> NameLe(s[i], s[j])
  }

  /** The entries of a listing that are directories, in listing order. */
  function Subdirs(cs: seq<Entry>): (r: seq<Entry>)
    ensures forall e :: e in r <==> e in cs && e.Dir?
    ensures |r| <= |cs|
  {
    if cs == [] then []
    else (if cs[0].Dir? then [cs[0]] else []) + Subdirs(cs[1..])
  }

  /** Puts `x` before the first entry whose key is not smaller, so that it
      stays ahead of entries with an equal key. */
  function Insert(x: Entry, s: seq<Entry>): seq<Entry> {
    if s == [] then [x]
    else if NameLe(x, s[0]) then [x] + s
    else [s[0]] + Insert(x, s[1..])
  }

  /** Insertion sort by lower-cased name; equal keys keep their order. */
  function SortByName(s: seq<Entry>): seq<Entry> {
    if s == [] then [] else Insert(s[0], SortByName(s[1..]))
  }

  lemma {:induction false} InsertSorted(x: Entry, s: seq<Entry>)
    requires SortedByName(s)
    ensures SortedByName(Insert(x, s))
    ensures multiset(Insert(x, s)) == multiset(s) + multiset{x}
    decreases |s|
  {
    if s == [] {
    } else if NameLe(x, s[0]) {
      HeadBeforeRest(s);
      forall y | y in s ensures NameLe(x, y) {
        if y != s[0] {
          LexLeTransitive(Lower(x.name), Lower(s[0].name), Lower(y.name));
        }
      }
      ConsSorted(x, s);
    } else {
      LexLeTotal(Lower(x.name), Lower(s[0].name));
      InsertSorted(x, s[1..]);
      HeadBeforeRest(s);
      InsertMembers(x, s[1..]);
      ConsSorted(s[0], Insert(x, s[1..]));
      assert s == [s[0]] + s[1..];
    }
  }

  /** The first entry of a sorted listing sorts before every entry. */
  lemma HeadBeforeRest(s: seq<Entry>)
    requires SortedByName(s) && s != []
    ensures forall y :: y in s ==> y == s[0] || NameLe(s[0], y)
    ensures SortedByName(s[1..])
  {
    forall y | y in s ensures y == s[0] || NameLe(s[0], y) {
      var j :| 0 <= j < |s| && s[j] == y;
    }
  }

  /** Inserting adds `x` and keeps every entry. */
  lemma {:induction false} InsertMembers(x: Entry, s: seq<Entry>)
    ensures forall y :: y in Insert(x, s) <==> y == x || y in s
    decreases |s|
  {
    if s != [] && !NameLe(x, s[0]) {
      InsertMembers(x, s[1..]);
      assert s == [s[0]] + s[1..];
    }
  }

  /** An entry that sorts before every entry of a sorted listing can head it. */
  lemma ConsSorted(first: Entry, s: seq<Entry>)
    requires SortedByName(s) && forall y :: y in s ==> NameLe(first, y)
    ensures SortedByName([first] + s)
  {
    forall i, j | 0 <= i < j < |[first] + s| ensures NameLe(([first] + s)[i], ([first] + s)[j]) {
      if i > 0 {
        assert ([first] + s)[i] == s[i - 1];
      } else {
        assert s[j - 1] in s;
      }
    }
  }

  /** The listing is sorted by lower-cased name and holds the same entries. */
  lemma {:induction false} SortByNameSorts(s: seq<Entry>)
    ensures SortedByName(SortByName(s))
    ensures multiset(SortByName(s)) == multiset(s)
    decreases |s|
  {
    if s != [] {
      SortByNameSorts(s[1..]);
      InsertSorted(s[0], SortByName(s[1..]));
      assert s == [s[0]] + s[1..];
    }
  }

  /** What `print_tree` walks through in a directory: its subdirectories,
      sorted by lower-cased name. */
  function Listed(e: Entry): seq<Entry>
    requires e.Dir?
  {
    SortByName(Subdirs(e.children))
  }

  /** `print_tree(entry, prefix, depth, maxDepth)`: nothing at or beyond the
      depth limit or for a non-directory; one refusal line for a directory
      that cannot be listed; otherwise the lines of its sorted
      subdirectories. */
  function PrintTree(e: Entry, prefix: string, depth: int, maxDepth: int): (lines: seq<string>)
    ensures forall i :: 0 <= i < |lines| ==> prefix <= lines[i]
    ensures depth >= maxDepth || !e.Dir? ==> lines == []
    decreases maxDepth - depth, 1
  {
    if depth >= maxDepth || !e.Dir? then []
    else if !e.readable then [prefix + LAST_BRANCH + ACCESS_DENIED]
    else PrintEntries(Listed(e), prefix, depth, maxDepth)
  }

  /** The `for` loop of `print_tree` over the remaining `items`: the item's
      own line, then its subtree (one level deeper, when the limit allows),
      then the items after it. */
  function PrintEntries(items: seq<Entry>, prefix: string, depth: int, maxDepth: int): (lines: seq<string>)
    ensures forall i :: 0 <= i < |lines| ==> prefix <= lines[i]
    ensures |lines| >= if depth < maxDepth then |items| else 0
    decreases maxDepth - depth, 0, |items|
  {
    if items == [] || depth >= maxDepth then []
    else
      var isLast := |items| == 1;
      var connector := if isLast then LAST_BRANCH else BRANCH;
      var extension := if isLast then BLANK_EXTENSION else PIPE_EXTENSION;
      var nested := if depth + 1 < maxDepth then PrintTree(items[0], prefix + extension, depth + 1, maxDepth) else [];
      [prefix + connector + items[0].name] + nested + PrintEntries(items[1..], prefix, depth, maxDepth)
  }

  /** The number of lines an independent count over the tree expects:
      within `levels` levels, one line per directory reached, and one for a
      directory that refuses listing. Files count nothing. */
  function Visible(e: Entry, levels: int): nat
    decreases e
  {
    if levels <= 0 || !e.Dir? then 0
    else if !e.readable then 1
    else VisibleAmong(e.children, levels)
  }

  function VisibleAmong(cs: seq<Entry>, levels: int): nat
    decreases cs
  {
    if cs == [] then 0
    else (if cs[0].Dir? then 1 + Visible(cs[0], levels - 1) else 0) + VisibleAmong(cs[1..], levels)
  }

  /** Each listed directory's line plus the lines of its subtree. */
  function SumVisible(items: seq<Entry>, levels: int): nat
  {
    if items == [] then 0 else 1 + Visible(items[0], levels) + SumVisible(items[1..], levels)
  }

  lemma {:induction false} SumVisibleInsert(x: Entry, s: seq<Entry>, levels: int)
    ensures SumVisible(Insert(x, s), levels) == 1 + Visible(x, levels) + SumVisible(s, levels)
    decreases |s|
  {
    if s != [] && !NameLe(x, s[0]) {
      SumVisibleInsert(x, s[1..], levels);
      assert Insert(x, s)[1..] == Insert(x, s[1..]);
    }
  }

  lemma {:induction false} SumVisibleSorted(s: seq<Entry>, levels: int)
    ensures SumVisible(SortByName(s), levels) == SumVisible(s, levels)
    decreases |s|
  {
    if s != [] {
      SumVisibleSorted(s[1..], levels);
      SumVisibleInsert(s[0], SortByName(s[1..]), levels);
    }
  }

  lemma {:induction false} SumVisibleSubdirs(cs: seq<Entry>, levels: int)
    ensures SumVisible(Subdirs(cs), levels - 1) == VisibleAmong(cs, levels)
    decreases |cs|
  {
    if cs != [] {
      SumVisibleSubdirs(cs[1..], levels);
      if cs[0].Dir? {
        assert Subdirs(cs) == [cs[0]] + Subdirs(cs[1..]);
        assert Subdirs(cs)[1..] == Subdirs(cs[1..]);
      } else {
        assert Subdirs(cs) == Subdirs(cs[1..]);
      }
    }
  }

  /** The printer shows exactly the directories at nesting levels 1 to
      `maxDepth - depth` below the entry, each once, whatever the sort does:
      the line count equals the independent count. */
  lemma {:induction false} PrintTreeCount(e: Entry, prefix: string, depth: int, maxDepth: int)
    ensures |PrintTree(e, prefix, depth, maxDepth)| == Visible(e, maxDepth - depth)
    decreases maxDepth - depth, 1
  {
    if depth < maxDepth && e.Dir? && e.readable {
      PrintEntriesCount(Listed(e), prefix, depth, maxDepth);
      SumVisibleSorted(Subdirs(e.children), maxDepth - depth - 1);
      SumVisibleSubdirs(e.children, maxDepth - depth);
    }
  }

  lemma {:induction false} PrintEntriesCount(items: seq<Entry>, prefix: string, depth: int, maxDepth: int)
    requires depth < maxDepth
    ensures |PrintEntries(items, prefix, depth, maxDepth)| == SumVisible(items, maxDepth - depth - 1)
    decreases maxDepth - depth, 0, |items|
  {
    if items != [] {
      var extension := if |items| == 1 then BLANK_EXTENSION else PIPE_EXTENSION;
      if depth + 1 < maxDepth {
        PrintTreeCount(items[0], prefix + extension, depth + 1, maxDepth);
      }
      PrintEntriesCount(items[1..], prefix, depth, maxDepth);
    }
  }

  /** Every line starts with the prefix it was printed under, followed by a
      branch, a pipe or a blank. */
  lemma {:induction false} LinesUnderPrefix(e: Entry, prefix: string, depth: int, maxDepth: int)
    ensures forall line :: line in PrintTree(e, prefix, depth, maxDepth) ==>
              |line| > |prefix| && line[..|prefix|] == prefix && IsTreeMark(line[|prefix|])
    decreases maxDepth - depth, 1
  {
    if depth < maxDepth && e.Dir? {
      if e.readable {
        EntriesUnderPrefix(Listed(e), prefix, depth, maxDepth);
      } else {
        var line := prefix + LAST_BRANCH + ACCESS_DENIED;
        assert line[..|prefix|] == prefix && line[|prefix|] == '└';
      }
    }
  }

  lemma {:induction false} EntriesUnderPrefix(items: seq<Entry>, prefix: string, depth: int, maxDepth: int)
    ensures forall line :: line in PrintEntries(items, prefix, depth, maxDepth) ==>
              |line| > |prefix| && line[..|prefix|] == prefix && IsTreeMark(line[|prefix|])
    decreases maxDepth - depth, 0, |items|
  {
    if items != [] && depth < maxDepth {
      var connector := Connector(0, |items|);
      var extension := if |items| == 1 then BLANK_EXTENSION else PIPE_EXTENSION;
      var own := prefix + connector + items[0].name;
      assert own[..|prefix|] == prefix && own[|prefix|] == connector[0];
      if depth + 1 < maxDepth {
        NestedUnderExtension(items[0], prefix, extension, depth + 1, maxDepth);
      }
      EntriesUnderPrefix(items[1..], prefix, depth, maxDepth);
    }
  }

  /** The lines of a subtree start with the parent's prefix and then the
      extension's first character, a pipe or a blank. */
  lemma {:induction false} NestedUnderExtension(e: Entry, prefix: string, extension: string, depth: int, maxDepth: int)
    requires extension == BLANK_EXTENSION || extension == PIPE_EXTENSION
    ensures forall line :: line in PrintTree(e, prefix + extension, depth, maxDepth) ==>
              |line| > |prefix| && line[..|prefix|] == prefix && line[|prefix|] == extension[0]
    decreases maxDepth - depth, 2
  {
    LinesUnderPrefix(e, prefix + extension, depth, maxDepth);
    forall line | line in PrintTree(e, prefix + extension, depth, maxDepth)
      ensures |line| > |prefix| && line[..|prefix|] == prefix && line[|prefix|] == extension[0]
    {
      assert line[..|prefix|] == line[..|prefix + extension|][..|prefix|];
      assert line[|prefix|] == line[..|prefix + extension|][|prefix|];
    }
  }

  /** The lines printed directly under `prefix`: those whose character after
      the prefix is a connector. */
  predicate IsTopLine(line: string, prefix: string) {
    |line| > |prefix| && (line[|prefix|] == '├' || line[|prefix|] == '└')
  }

  ghost function TopLines(lines: seq<string>, prefix: string): seq<string> {
    if lines == [] then []
    else (if IsTopLine(lines[0], prefix) then [lines[0]] else []) + TopLines(lines[1..], prefix)
  }

  lemma {:induction false} TopLinesAppend(a: seq<string>, b: seq<string>, prefix: string)
    ensures TopLines(a + b, prefix) == TopLines(a, prefix) + TopLines(b, prefix)
    decreases |a|
  {
    if a != [] {
      TopLinesAppend(a[1..], b, prefix);
      var ab := a + b;
      assert ab[0] == a[0] && ab[1..] == a[1..] + b;
      var head := if IsTopLine(a[0], prefix) then [a[0]] else [];
      assert TopLines(ab, prefix) == head + TopLines(ab[1..], prefix);
      assert TopLines(a, prefix) == head + TopLines(a[1..], prefix);
      assert head + (TopLines(a[1..], prefix) + TopLines(b, prefix))
          == (head + TopLines(a[1..], prefix)) + TopLines(b, prefix);
    } else {
      assert a + b == b;
    }
  }

  lemma {:induction false} NoTopLines(lines: seq<string>, prefix: string)
    requires forall line :: line in lines ==> |line| > |prefix| && (line[|prefix|] == '│' || line[|prefix|] == ' ')
    ensures TopLines(lines, prefix) == []
    decreases |lines|
  {
    if lines != [] {
      assert lines[0] in lines;
      NoTopLines(lines[1..], prefix);
    }
  }

  /** Directly under the prefix, each item gets one line, in listing order:
      the prefix, then `├── ` for every item but the last, which gets
      `└── `, then the name. */
  lemma {:induction false} EntriesTopLines(items: seq<Entry>, prefix: string, depth: int, maxDepth: int)
    requires depth < maxDepth
    ensures TopLines(PrintEntries(items, prefix, depth, maxDepth), prefix) == ConnectorLines(items, prefix)
    decreases |items|
  {
    if items != [] {
      var extension := if |items| == 1 then BLANK_EXTENSION else PIPE_EXTENSION;
      var own := prefix + Connector(0, |items|) + items[0].name;
      var nested := if depth + 1 < maxDepth then PrintTree(items[0], prefix + extension, depth + 1, maxDepth) else [];
      var rest := PrintEntries(items[1..], prefix, depth, maxDepth);
      assert PrintEntries(items, prefix, depth, maxDepth) == [own] + nested + rest;
      if depth + 1 < maxDepth {
        NestedUnderExtension(items[0], prefix, extension, depth + 1, maxDepth);
      }
      NoTopLines(nested, prefix);
      EntriesTopLines(items[1..], prefix, depth, maxDepth);
      TopLinesAppend([own] + nested, rest, prefix);
      TopLinesAppend([own], nested, prefix);
      OwnLineIsTop(items, prefix);
      ConnectorLinesTail(items, prefix);
    }
  }

  /** The expected connector lines of `items` under `prefix`. */
  function ConnectorLines(items: seq<Entry>, prefix: string): (r: seq<string>)
    ensures |r| == |items|
  {
    seq(|items|, i requires 0 <= i < |items| => prefix + Connector(i, |items|) + items[i].name)
  }

  lemma ConnectorLinesTail(items: seq<Entry>, prefix: string)
    requires items != []
    ensures ConnectorLines(items, prefix) == [prefix + Connector(0, |items|) + items[0].name] + ConnectorLines(items[1..], prefix)
  {
    var whole, rest := ConnectorLines(items, prefix), ConnectorLines(items[1..], prefix);
    forall i | 0 < i < |items| ensures whole[i] == rest[i - 1] {
      assert items[1..][i - 1] == items[i];
    }
  }

  lemma OwnLineIsTop(items: seq<Entry>, prefix: string)
    requires items != []
    ensures TopLines([prefix + Connector(0, |items|) + items[0].name], prefix) == [prefix + Connector(0, |items|) + items[0].name]
  {
    var own := prefix + Connector(0, |items|) + items[0].name;
    assert own[|prefix|] == Connector(0, |items|)[0];
  }

  /** Under a listable directory within the depth limit, the lines printed
      directly under the prefix name its subdirectories, files left out,
      sorted by lower-cased name, with `└── ` on the last. */
  lemma ListsSortedSubdirectories(e: Entry, prefix: string, depth: int, maxDepth: int)
    requires e.Dir? && e.readable && depth < maxDepth
    ensures var items := Listed(e);
            && TopLines(PrintTree(e, prefix, depth, maxDepth), prefix) == ConnectorLines(items, prefix)
            && SortedByName(items)
            && multiset(items) == multiset(Subdirs(e.children))
  {
    EntriesTopLines(Listed(e), prefix, depth, maxDepth);
    SortByNameSorts(Subdirs(e.children));
  }

  /** With one level left, no subtree is entered: the lines are exactly the
      connector lines of the sorted subdirectories. */
  lemma {:induction false} LastLevelIsFlat(items: seq<Entry>, prefix: string, depth: int)
    ensures PrintEntries(items, prefix, depth, depth + 1) == ConnectorLines(items, prefix)
    decreases |items|
  {
    if items != [] {
      LastLevelIsFlat(items[1..], prefix, depth);
      ConnectorLinesTail(items, prefix);
    }
  }

  /** The arguments of `main`: the path and the depth, when given. */
  datatype Arguments = Arguments(path: Option<string>, depth: Option<int>)

  /** `main`: the path and depth default to `.` and 3. A path that does not
      exist (`root` None) prints one error line; otherwise a header naming
      the resolved directory, then the tree from depth 0 with an empty
      prefix. */
  function Main(args: Arguments, root: Option<Entry>): (lines: seq<string>)
    ensures root.None? ==> lines == ["Ошибка: Директория '" + args.path.GetOr(DEFAULT_PATH) + "' не найдена."]
    ensures root.Some? ==> |lines| == 1 + Visible(root.value, args.depth.GetOr(DEFAULT_MAX_DEPTH))
    ensures root.Some? ==> lines[1..] == PrintTree(root.value, "", 0, args.depth.GetOr(DEFAULT_MAX_DEPTH))
  {
    var path := args.path.GetOr(DEFAULT_PATH);
    var maxDepth := args.depth.GetOr(DEFAULT_MAX_DEPTH);
    match root
    case None => ["Ошибка: Директория '" + path + "' не найдена."]
    case Some(dir) =>
      PrintTreeCount(dir, "", 0, maxDepth);
      ["📁 " + dir.name + " (Только папки, Глубина: " + IntToString(maxDepth) + ")"]
        + PrintTree(dir, "", 0, maxDepth)
  }

  /** Python's `str` of an integer. */
  function IntToString(n: int): string
    decreases if n < 0 then 1 - n else n
  {
    if n < 0 then "-" + IntToString(-n)
    else if n < 10 then ["0123456789"[n]]
    else IntToString(n / 10) + ["0123456789"[n % 10]]
  }
}
