/**
 * The PHP string built-ins the engine relies on: `explode` on one delimiter character,
 * `preg_split` on a character class, and reading an array index that may be missing.
 */
module PhpStrings {
  import opened Wrappers

  /** No character of `s` is one of `seps`. */
  predicate Free(s: string, seps: set<char>)
  {
    forall i :: 0 <= i < |s| ==> s[i] !in seps
  }

  /**
   * `explode(c, s)` when `seps == {c}`, `preg_split("/a|b/", s)` when `seps == {a, b}`:
   * the pieces of `s` between separator characters, left to right, empty pieces included.
   */
  function Split(s: string, seps: set<char>): (parts: seq<string>)
    ensures |parts| >= 1
    ensures forall i :: 0 <= i < |parts| ==> Free(parts[i], seps)
    decreases |s|
  {
    if s == [] then [""]
    else
      var rest := Split(s[1..], seps);
      if s[0] in seps then [""] + rest
      else [[s[0]] + rest[0]] + rest[1..]
  }

  /** `implode(sep, parts)`: the pieces with one `sep` between neighbours. */
  function Join(parts: seq<string>, sep: char): string
    requires |parts| >= 1
  {
    if |parts| == 1 then parts[0] else parts[0] + [sep] + Join(parts[1..], sep)
  }

  /**
   * `$parts[$i]` in a string context: a missing index reads as `null`, which PHP turns
   * into the empty string.
   */
  function At(parts: seq<string>, i: nat): string
  {
    if i < |parts| then parts[i] else ""
  }

  /** `$parts[$i]` stored as it is: a missing index is `null`. */
  function Index(parts: seq<string>, i: nat): (v: Option<string>)
    ensures v.Some? <==> i < |parts|
    ensures v.Some? ==> v.value == At(parts, i)
  {
    if i < |parts| then Some(parts[i]) else None
  }

  /** A separator-free prefix becomes part of the first piece. */
  lemma {:induction false} SplitFreePrefix(a: string, t: string, seps: set<char>)
    requires Free(a, seps)
    ensures Split(a + t, seps) == [a + Split(t, seps)[0]] + Split(t, seps)[1..]
    decreases |a|
  {
    if a == [] {
      var st := Split(t, seps);
      assert a + t == t;
      assert a + st[0] == st[0];
      assert [st[0]] + st[1..] == st;
    } else {
      var st := Split(t, seps);
      assert (a + t)[0] == a[0] && (a + t)[1..] == a[1..] + t;
      SplitFreePrefix(a[1..], t, seps);
      var rest := Split(a[1..] + t, seps);
      assert rest == [a[1..] + st[0]] + st[1..];
      assert Split(a + t, seps) == [[a[0]] + rest[0]] + rest[1..];
      assert [a[0]] + (a[1..] + st[0]) == a + st[0];
    }
  }

  /**
   * Joining separator-free pieces with one of the separators and splitting again gives the
   * pieces back.
   */
  lemma {:induction false} SplitJoin(parts: seq<string>, sep: char, seps: set<char>)
    requires |parts| >= 1 && sep in seps
    requires forall i :: 0 <= i < |parts| ==> Free(parts[i], seps)
    ensures Split(Join(parts, sep), seps) == parts
    decreases |parts|
  {
    if |parts| == 1 {
      SplitFreePrefix(parts[0], "", seps);
      assert parts[0] + "" == parts[0];
    } else {
      var tail := Join(parts[1..], sep);
      SplitJoin(parts[1..], sep, seps);
      SplitFreePrefix(parts[0], [sep] + tail, seps);
      assert parts[0] + [sep] + tail == parts[0] + ([sep] + tail);
      assert ([sep] + tail)[1..] == tail;
      assert ([sep] + tail)[0] == sep;
      assert Split([sep] + tail, seps) == [""] + parts[1..];
      assert Join(parts, sep) == parts[0] + ([sep] + tail);
      assert parts[0] + "" == parts[0];
      assert parts == [parts[0]] + parts[1..];
    }
  }

  /** Pieces free of `seps`, joined by a character outside `seps`, are free of `seps`. */
  lemma {:induction false} JoinFree(parts: seq<string>, sep: char, seps: set<char>)
    requires |parts| >= 1 && sep !in seps
    requires forall i :: 0 <= i < |parts| ==> Free(parts[i], seps)
    ensures Free(Join(parts, sep), seps)
    decreases |parts|
  {
    if |parts| > 1 {
      JoinFree(parts[1..], sep, seps);
      var tail := Join(parts[1..], sep);
      var whole := parts[0] + [sep] + tail;
      forall i | 0 <= i < |whole| ensures whole[i] !in seps {
        if i < |parts[0]| {
          assert whole[i] == parts[0][i];
        } else if i == |parts[0]| {
          assert whole[i] == sep;
        } else {
          assert whole[i] == tail[i - |parts[0]| - 1];
        }
      }
    }
  }

  lemma FreeSubset(s: string, fewer: set<char>, more: set<char>)
    requires fewer <= more && Free(s, more)
    ensures Free(s, fewer)
  {
  }

  /** "a<sep>b" with `a` and `b` free of separators splits into exactly `a` and `b`. */
  lemma SplitPair(a: string, b: string, sep: char, seps: set<char>)
    requires sep in seps && Free(a, seps) && Free(b, seps)
    ensures Split(a + [sep] + b, seps) == [a, b]
  {
    SplitJoin([a, b], sep, seps);
    assert Join([a, b], sep) == a + [sep] + Join([b], sep);
  }
}
