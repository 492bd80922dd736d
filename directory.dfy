/** `truncate` from the directory utilities: shorten a displayed path to a number of
    components. A path is its sequence of normal components; the text form joins them by '/'. */
module Directory {
  import opened RustTypes

  /** A normal path component: a non-empty name without the separator, other than `.` and `..`. */
  type Component = s: string | s != "" && s != "." && s != ".." && '/' !in s witness "a"

  /** `PathBuf::push` of a normal component onto a buffer holding a relative path. */
  function Push(buf: string, c: Component): (r: string)
    ensures |r| == |buf| + (if buf == "" then 0 else 1) + |c|
  {
    if buf == "" then c else buf + "/" + c
  }

  /** Pushing onto an empty buffer gives the component alone; pushing onto a non-empty one
      keeps the buffer, adds one separator, then the component. */
  lemma PushAppends(buf: string, c: Component)
    ensures buf == "" ==> Push(buf, c) == c
    ensures buf != "" ==> Push(buf, c)[..|buf|] == buf && Push(buf, c)[|buf|] == '/'
    ensures Push(buf, c)[|Push(buf, c)| - |c|..] == c
  {
  }

  /** The text of a relative path: its components pushed in order onto `PathBuf::new()`. */
  function Join(parts: seq<Component>): (r: string)
    ensures r == "" <==> parts == []
  {
    if parts == [] then "" else Push(Join(parts[..|parts| - 1]), parts[|parts| - 1])
  }

  /** `k` copies of `c`. */
  function Repeat(c: Component, k: nat): (r: seq<Component>)
    ensures |r| == k && forall i :: 0 <= i < k ==> r[i] == c
  {
    if k == 0 then [] else Repeat(c, k - 1) + [c]
  }

  /** The position of the last separator in `s`, or -1 if there is none. */
  function LastSlash(s: string): (r: int)
    ensures -1 <= r < |s|
    ensures r >= 0 ==> s[r] == '/'
    ensures forall j :: r < j < |s| ==> s[j] != '/'
  {
    if s == [] then -1 else if s[|s| - 1] == '/' then |s| - 1 else LastSlash(s[..|s| - 1])
  }

  /** The pieces of `s` between separators: the reading back of a joined path. */
  function Split(s: string): seq<string>
    decreases |s|
  {
    var i := LastSlash(s);
    if i < 0 then [s] else Split(s[..i]) + [s[i + 1..]]
  }

  /** Splitting the text of a non-empty relative path gives back its components. */
  lemma {:induction false} SplitJoin(parts: seq<Component>)
    requires parts != []
    ensures Split(Join(parts)) == parts
    decreases |parts|
  {
    var init, last := parts[..|parts| - 1], parts[|parts| - 1];
    var s := Join(parts);
    if init == [] {
      assert s == last;
      assert LastSlash(s) < 0;
    } else {
      var head := Join(init);
      assert s == head + "/" + last;
      assert s[|head|] == '/';
      forall j | |head| < j < |s| ensures s[j] != '/' {
        assert s[j] == last[j - |head| - 1];
      }
      assert LastSlash(s) == |head|;
      assert s[..|head|] == head && s[|head| + 1..] == last;
      SplitJoin(init);
      assert parts == init + [last];
    }
  }

  /** What `truncate` evaluates to, as written: `None` for length 0 or a path without
      components, otherwise the last component pushed `length` times. */
  function Truncated(path: seq<Component>, length: USize): (r: Option<string>)
    ensures r.Some? <==> 0 < length && path != []
  {
    if length == 0 || path == [] then None else Some(Join(Repeat(path[|path| - 1], length)))
  }

  /** `truncate(path, length)` as the code runs it. Each pass asks a fresh
      `path.components()` iterator for its last element, so the loop keeps pushing the path's
      final component until `count` reaches `length`. */
  method Truncate(path: seq<Component>, length: USize) returns (r: Option<string>)
    ensures length == 0 ==> r == None
    ensures path == [] ==> r == None
    ensures r.Some? <==> 0 < length && path != []
    ensures r == Truncated(path, length)
  {
    if length == 0 {
      return None;
    }
    var truncated := "";
    var count: USize := 0;
    while path != []
      invariant count < length
      invariant truncated == if path == [] then "" else Join(Repeat(path[|path| - 1], count))
      decreases length - count
    {
      var component := path[|path| - 1];
      ghost var before := Repeat(component, count);
      truncated := Push(truncated, component);
      count := count + 1;
      assert Repeat(component, count)[..count - 1] == before;
      if count == length {
        break;
      }
    }
    if count == length {
      r := Some(truncated);
    } else {
      r := None;
    }
  }

  /** Whenever `truncate` returns a path, reading it back gives the last component of the
      input `length` times over, and nothing from earlier in the path. */
  lemma TruncatedRepeatsLast(path: seq<Component>, length: USize)
    requires 0 < length && path != []
    ensures Truncated(path, length).Some?
    ensures Split(Truncated(path, length).value) == Repeat(path[|path| - 1], length)
  {
    SplitJoin(Repeat(path[|path| - 1], length));
  }

  /** What the documentation promises: the last `length` components, in order, and `None`
      when `length` is 0 or the path has fewer components than that. */
  function LastComponents(path: seq<Component>, length: USize): (r: Option<string>)
    ensures r.Some? <==> 0 < length <= |path|
  {
    if length == 0 || length > |path| then None else Some(Join(path[|path| - length..]))
  }

  /** `truncate` corrected in two ways. It holds one iterator over the components across
      passes, so each pass takes the next component from the back. It also restores the
      order: each component taken goes in front of those already kept, where pushing it
      would reverse them. The `count == length` test is the code's own, so a path with
      exactly `length` components is returned whole. */
  method TruncateLastComponents(path: seq<Component>, length: USize) returns (r: Option<string>)
    ensures length == 0 ==> r == None
    ensures r.Some? <==> 0 < length <= |path|
    ensures r == LastComponents(path, length)
  {
    if length == 0 {
      return None;
    }
    var kept: seq<Component> := [];
    var rest := path;
    var count: USize := 0;
    while rest != []
      invariant count < length
      invariant |kept| == count && rest + kept == path
      decreases |rest|
    {
      var component := rest[|rest| - 1];
      assert rest == rest[..|rest| - 1] + [component];
      rest := rest[..|rest| - 1];
      kept := [component] + kept;
      count := count + 1;
      if count == length {
        break;
      }
    }
    assert kept == path[|path| - count..];
    if count == length {
      r := Some(Join(kept));
    } else {
      r := None;
    }
  }

  /** Whenever the corrected `truncate` returns a path, reading it back gives exactly the last
      `length` components of the input. */
  lemma LastComponentsSplit(path: seq<Component>, length: USize)
    requires 0 < length <= |path|
    ensures LastComponents(path, length).Some?
    ensures Split(LastComponents(path, length).value) == path[|path| - length..]
  {
    SplitJoin(path[|path| - length..]);
  }

  /** The code and its documentation part ways on every path whose last two components
      differ, for every length from 2 up to the number of components. */
  lemma TruncateMissesEarlierComponents(path: seq<Component>, length: USize)
    requires 2 <= length <= |path| && path[|path| - 2] != path[|path| - 1]
    ensures Truncated(path, length) != LastComponents(path, length)
  {
    TruncatedRepeatsLast(path, length);
    LastComponentsSplit(path, length);
    var tail := path[|path| - length..];
    assert tail[length - 2] == path[|path| - 2];
  }

  /** The example of the documentation, as the code runs it: the last name three times over. */
  lemma DocumentationExampleAsWritten()
    ensures Truncated(["home", "user", "documents", "report", "2023", "05", "27", "file.txt"], 3)
         == Some("file.txt/file.txt/file.txt")
  {
    var c: Component := "file.txt";
    var one, two, three := [c], [c, c], [c, c, c];
    assert Repeat(c, 3) == three;
    assert one[..0] == [] && two[..1] == one && three[..2] == two;
    assert Join(one) == "file.txt";
    assert Join(two) == "file.txt/file.txt";
    assert Join(three) == "file.txt/file.txt/file.txt";
  }

  /** The example of the documentation, as it is described: the last three components. */
  lemma DocumentationExampleIntended()
    ensures LastComponents(["home", "user", "documents", "report", "2023", "05", "27", "file.txt"], 3)
         == Some("05/27/file.txt")
  {
    var path: seq<Component> := ["home", "user", "documents", "report", "2023", "05", "27", "file.txt"];
    var a: Component, b: Component, c: Component := "05", "27", "file.txt";
    var one, two, three := [a], [a, b], [a, b, c];
    assert path[|path| - 3..] == three;
    assert one[..0] == [] && two[..1] == one && three[..2] == two;
    assert Join(one) == "05";
    assert Join(two) == "05/27";
    assert Join(three) == "05/27/file.txt";
  }
}
