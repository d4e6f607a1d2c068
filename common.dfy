/** Small value types and the string operations the JavaScript code relies on:
    `endsWith`, `toLowerCase` and `split`. */
module Common {

  datatype Option<+T> = None | Some(value: T)

  /** An error response: HTTP status, `error` and `message`. */
  datatype Failure = Failure(status: nat, error: string, message: string)

  /** `s.endsWith(suffix)`. */
  predicate EndsWith(s: string, suffix: string)
  {
    |suffix| <= |s| && s[|s| - |suffix|..] == suffix
  }

  /** A suffix of a suffix is a suffix. */
  lemma EndsWithTransitive(s: string, t: string, u: string)
    requires EndsWith(s, t) && EndsWith(t, u)
    ensures EndsWith(s, u)
  {
    assert s[|s| - |u|..] == s[|s| - |t|..][|t| - |u|..];
  }

  predicate IsUpper(c: char)
  {
    'A' <= c <= 'Z'
  }

  function LowerChar(c: char): (d: char)
    ensures !IsUpper(d)
    ensures !IsUpper(c) ==> d == c
  {
    if IsUpper(c) then (c as int + 32) as char else c
  }

  /** `s.toLowerCase()`, restricted to the ASCII letters. */
  function Lower(s: string): (r: string)
    ensures |r| == |s|
    ensures forall i :: 0 <= i < |r| ==> !IsUpper(r[i])
    ensures forall i :: 0 <= i < |s| && !IsUpper(s[i]) ==> r[i] == s[i]
    ensures forall i :: 0 <= i < |s| && IsUpper(s[i]) ==> r[i] == (s[i] as int + 32) as char
  {
    seq(|s|, i requires 0 <= i < |s| => LowerChar(s[i]))
  }

  /** Lower-casing a string lower-cases each of its suffixes. */
  lemma LowerKeepsSuffix(s: string, suffix: string)
    requires EndsWith(s, suffix)
    ensures EndsWith(Lower(s), Lower(suffix))
  {
    var k := |s| - |suffix|;
    forall i | 0 <= i < |suffix|
      ensures Lower(s)[k + i] == Lower(suffix)[i]
    {
      assert s[k + i] == suffix[i];
    }
    assert Lower(s)[k..] == Lower(suffix);
  }

  /** The inverse of `Split`: the parts glued back together with the separator. */
  function Join(parts: seq<string>, sep: char): (s: string)
    requires |parts| >= 1
    decreases |parts|
  {
    if |parts| == 1 then parts[0] else parts[0] + [sep] + Join(parts[1..], sep)
  }

  /** `s.split(sep)` for a one-character separator: every occurrence of `sep`
      ends one part and starts the next, so `""` gives `[""]` and `" "` gives
      `["", ""]`. */
  function Split(s: string, sep: char): (parts: seq<string>)
    ensures |parts| >= 1
    ensures forall i :: 0 <= i < |parts| ==> sep !in parts[i]
    ensures Join(parts, sep) == s
    decreases |s|
  {
    if s == [] then [""]
    else
      var rest := Split(s[1..], sep);
      if s[0] == sep then
        assert s == [sep] + s[1..];
        [""] + rest
      else
        assert s == [s[0]] + s[1..];
        JoinConsFirst(s[0], rest, sep);
        [[s[0]] + rest[0]] + rest[1..]
  }

  /** Prepending a character to the first part prepends it to the joined string. */
  lemma JoinConsFirst(c: char, parts: seq<string>, sep: char)
    requires |parts| >= 1
    ensures Join([[c] + parts[0]] + parts[1..], sep) == [c] + Join(parts, sep)
  {
    var p := [[c] + parts[0]] + parts[1..];
    assert p[1..] == parts[1..];
  }

  /** More than one part means the separator occurred in the string. */
  lemma SplitManyHasSep(s: string, sep: char)
    requires |Split(s, sep)| > 1
    ensures sep in s
  {
    var parts := Split(s, sep);
    assert s == parts[0] + [sep] + Join(parts[1..], sep);
    assert s[|parts[0]|] == sep;
  }

  /** A string without the separator is a single part. */
  lemma {:induction false} SplitNoSep(w: string, sep: char)
    requires sep !in w
    ensures Split(w, sep) == [w]
    decreases |w|
  {
    if w != [] {
      SplitNoSep(w[1..], sep);
      assert [w[0]] + w[1..] == w;
    }
  }

  /** Splitting at the first separator: the text before it is the first part. */
  lemma {:induction false} SplitAtFirst(w: string, sep: char, rest: string)
    requires sep !in w
    ensures Split(w + [sep] + rest, sep) == [w] + Split(rest, sep)
    decreases |w|
  {
    var s := w + [sep] + rest;
    if w == [] {
      assert s[1..] == rest;
    } else {
      assert s[1..] == w[1..] + [sep] + rest;
      SplitAtFirst(w[1..], sep, rest);
      assert [w[0]] + w[1..] == w;
    }
  }

  /** The other half of the round trip: splitting joined separator-free parts
      gives the parts back. */
  lemma {:induction false} SplitJoin(parts: seq<string>, sep: char)
    requires |parts| >= 1
    requires forall i :: 0 <= i < |parts| ==> sep !in parts[i]
    ensures Split(Join(parts, sep), sep) == parts
    decreases |parts|
  {
    if |parts| == 1 {
      SplitNoSep(parts[0], sep);
    } else {
      SplitJoin(parts[1..], sep);
      SplitAtFirst(parts[0], sep, Join(parts[1..], sep));
      assert [parts[0]] + parts[1..] == parts;
    }
  }
}
