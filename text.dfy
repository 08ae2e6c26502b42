/**
 * The Python string built-ins the archiver relies on, written out over `seq<char>`:
 * `startswith`, `lstrip`, `replace(c, '')`, `split`, `join`, `lower` and the
 * POSIX `os.path` helpers.
 */
module Text {

  /** Python's `s.startswith(prefix)`. */
  predicate StartsWith(s: string, prefix: string) {
    |prefix| <= |s| && s[..|prefix|] == prefix
  }

  /**
   * `rest` is what remains of `s` once the longest leading run of characters
   * drawn from `chars` is removed: a suffix of `s`, everything before it is in
   * `chars`, and it does not itself begin with a character of `chars`.
   */
  predicate StrippedRun(s: string, rest: string, chars: set<char>) {
    && |rest| <= |s|
    && rest == s[|s| - |rest|..]
    && (forall i :: 0 <= i < |s| - |rest| ==> s[i] in chars)
    && (rest == [] || rest[0] !in chars)
  }

  /** Every character of `s` is in `chars`. */
  predicate AllIn(s: string, chars: set<char>) {
    forall i :: 0 <= i < |s| ==> s[i] in chars
  }

  /** No character of `s` is in `chars`. */
  predicate NoneIn(s: string, chars: set<char>) {
    forall i :: 0 <= i < |s| ==> s[i] !in chars
  }

  /** Joining two strings free of `chars` gives one free of them. */
  lemma NoneInAppend(s: string, t: string, chars: set<char>)
    requires NoneIn(s, chars) && NoneIn(t, chars)
    ensures NoneIn(s + t, chars)
  {
    forall i | 0 <= i < |s + t|
      ensures (s + t)[i] !in chars
    {
      if i >= |s| {
        assert (s + t)[i] == t[i - |s|];
      }
    }
  }

  /** Python's `s.lstrip(chars)`: the argument is a SET of characters, not a prefix. */
  function LStrip(s: string, chars: set<char>): (r: string)
    ensures |r| <= |s|
    ensures r == [] || r[0] !in chars
  {
    if s != [] && s[0] in chars then LStrip(s[1..], chars) else s
  }

  /** What `LStrip` leaves is the remainder `StrippedRun` describes. */
  lemma {:induction false} LStripIsStrippedRun(s: string, chars: set<char>)
    ensures StrippedRun(s, LStrip(s, chars), chars)
  {
    if s != [] && s[0] in chars {
      LStripIsStrippedRun(s[1..], chars);
      StrippedRunCons(s, LStrip(s[1..], chars), chars);
    }
  }

  /** A stripped remainder of `s[1..]` is one of `s` too when `s[0]` is in `chars`. */
  lemma StrippedRunCons(s: string, rest: string, chars: set<char>)
    requires s != [] && s[0] in chars
    requires StrippedRun(s[1..], rest, chars)
    ensures StrippedRun(s, rest, chars)
  {
    assert s[1..][|s[1..]| - |rest|..] == s[|s| - |rest|..];
    forall i | 0 <= i < |s| - |rest|
      ensures s[i] in chars
    {
      if i > 0 {
        assert s[i] == s[1..][i - 1];
      }
    }
  }

  /** The description `StrippedRun` pins down exactly one remainder, the one `LStrip` computes. */
  lemma {:induction false} StrippedRunIsLStrip(s: string, rest: string, chars: set<char>)
    requires StrippedRun(s, rest, chars)
    ensures rest == LStrip(s, chars)
  {
    if |rest| == |s| {
      assert rest == s[0..] == s;
    } else {
      assert s[0] in chars;
      assert s[1..][|s[1..]| - |rest|..] == s[|s| - |rest|..];
      forall i | 0 <= i < |s[1..]| - |rest|
        ensures s[1..][i] in chars
      {
        assert s[1..][i] == s[i + 1];
      }
      StrippedRunIsLStrip(s[1..], rest, chars);
    }
  }

  /** Characters of `chars` in front of `rest` are all swallowed by `lstrip`. */
  lemma {:induction false} LStripSkips(run: string, rest: string, chars: set<char>)
    requires AllIn(run, chars)
    ensures LStrip(run + rest, chars) == LStrip(rest, chars)
  {
    if run == [] {
      assert run + rest == rest;
    } else {
      assert (run + rest)[1..] == run[1..] + rest;
      LStripSkips(run[1..], rest, chars);
    }
  }

  /**
   * `if s.startswith('+'): s = s.lstrip('+')` (ios_backup_message_archiver.py
   * lines 90-91 and 265-266): every leading '+' goes, and the guard changes nothing.
   */
  function StripPlus(s: string): (r: string)
    ensures r == LStrip(s, {'+'})
    ensures !StartsWith(r, "+")
  {
    if StartsWith(s, "+") then LStrip(s, {'+'}) else s
  }

  /** The characters of `s` outside `chars`, in order: what `s.replace(c, '')` does for each `c` in `chars`. */
  function Drop(s: string, chars: set<char>): (r: string)
    ensures |r| <= |s|
  {
    if s == [] then [] else (if s[0] in chars then [] else [s[0]]) + Drop(s[1..], chars)
  }

  /** No character of `chars` survives `Drop`. */
  lemma {:induction false} DropRemoves(s: string, chars: set<char>)
    ensures NoneIn(Drop(s, chars), chars)
  {
    if s != [] {
      var tail := Drop(s[1..], chars);
      DropRemoves(s[1..], chars);
      var head := if s[0] in chars then [] else [s[0]];
      assert Drop(s, chars) == head + tail;
      forall i | 0 <= i < |head + tail|
        ensures (head + tail)[i] !in chars
      {
        if i >= |head| {
          assert (head + tail)[i] == tail[i - |head|];
        }
      }
    }
  }

  /** `Drop` takes a string apart at its first character. */
  lemma DropCons(x: char, tail: string, chars: set<char>)
    ensures Drop([x] + tail, chars) == (if x in chars then [] else [x]) + Drop(tail, chars)
  {
    assert ([x] + tail)[1..] == tail;
  }

  /** `Drop` works piece by piece on a concatenation. */
  lemma {:induction false} DropAppend(s: string, t: string, chars: set<char>)
    ensures Drop(s + t, chars) == Drop(s, chars) + Drop(t, chars)
  {
    if s == [] {
      assert s + t == t;
    } else {
      var head := if s[0] in chars then [] else [s[0]];
      assert (s + t)[0] == s[0];
      assert (s + t)[1..] == s[1..] + t;
      calc {
        Drop(s + t, chars);
        head + Drop(s[1..] + t, chars);
        { DropAppend(s[1..], t, chars); }
        head + (Drop(s[1..], chars) + Drop(t, chars));
        (head + Drop(s[1..], chars)) + Drop(t, chars);
      }
    }
  }

  /** A string made only of removed characters vanishes. */
  lemma {:induction false} DropOnly(s: string, chars: set<char>)
    requires AllIn(s, chars)
    ensures Drop(s, chars) == []
  {
    if s != [] {
      DropOnly(s[1..], chars);
    }
  }

  /** Removing one set of characters and then another removes their union. */
  lemma {:induction false} DropDrop(s: string, a: set<char>, b: set<char>)
    ensures Drop(Drop(s, a), b) == Drop(s, a + b)
  {
    if s != [] {
      var tail := Drop(s[1..], a);
      DropDrop(s[1..], a, b);
      if s[0] !in a {
        calc {
          Drop(Drop(s, a), b);
          { assert Drop(s, a) == [s[0]] + tail; }
          Drop([s[0]] + tail, b);
          { DropCons(s[0], tail, b); }
          (if s[0] in b then [] else [s[0]]) + Drop(tail, b);
          { assert (s[0] in b) == (s[0] in a + b); }
          Drop(s, a + b);
        }
      } else {
        assert Drop(s, a) == tail;
        assert s[0] in a + b;
        assert Drop(s, a + b) == Drop(s[1..], a + b);
      }
    }
  }

  /** Removing characters that do not occur changes nothing. */
  lemma {:induction false} DropAbsent(s: string, chars: set<char>)
    requires NoneIn(s, chars)
    ensures Drop(s, chars) == s
  {
    if s != [] {
      DropAbsent(s[1..], chars);
      assert [s[0]] + s[1..] == s;
    }
  }

  /** Python's `s.split(c)` for a one-character separator. */
  function Split(s: string, c: char): (r: seq<string>)
    ensures |r| >= 1
    ensures |r| == 1 ==> r[0] == s
    ensures c !in s ==> r == [s]
  {
    if s == [] then [[]]
    else
      var rest := Split(s[1..], c);
      if s[0] == c then [[]] + rest
      else
        assert [s[0]] + s[1..] == s;
        [[s[0]] + rest[0]] + rest[1..]
  }

  /** Python's `sep.join(parts)`. */
  function Join(sep: string, parts: seq<string>): string {
    if parts == [] then []
    else if |parts| == 1 then parts[0]
    else parts[0] + sep + Join(sep, parts[1..])
  }

  /** The last element of a non-empty sequence: Python's `xs[-1]`. */
  function Last<T>(xs: seq<T>): T
    requires xs != []
  {
    xs[|xs| - 1]
  }

  /** Reference definition: every occurrence of `c` in `s` replaced by `with`, character by character. */
  function Substitute(s: string, c: char, with: string): (r: string)
    ensures c !in with ==> c !in r
  {
    if s == [] then [] else (if s[0] == c then with else [s[0]]) + Substitute(s[1..], c, with)
  }

  /** Prepending to the first part of a join prepends to the whole join. */
  lemma JoinPrepend(sep: string, x: string, parts: seq<string>)
    requires parts != []
    ensures Join(sep, [x + parts[0]] + parts[1..]) == x + Join(sep, parts)
  {
    if |parts| > 1 {
      assert ([x + parts[0]] + parts[1..])[1..] == parts[1..];
    }
  }

  /** No part of `s.split(c)` contains `c`. */
  lemma {:induction false} SplitAvoids(s: string, c: char)
    ensures forall i :: 0 <= i < |Split(s, c)| ==> c !in Split(s, c)[i]
  {
    if s != [] {
      var rest := Split(s[1..], c);
      SplitAvoids(s[1..], c);
      if s[0] != c {
        assert Split(s, c) == [[s[0]] + rest[0]] + rest[1..];
        forall i | 0 <= i < |Split(s, c)|
          ensures c !in Split(s, c)[i]
        {
          if i > 0 {
            assert Split(s, c)[i] == rest[i];
          }
        }
      } else {
        assert Split(s, c) == [[]] + rest;
        forall i | 0 <= i < |Split(s, c)|
          ensures c !in Split(s, c)[i]
        {
          if i > 0 {
            assert Split(s, c)[i] == rest[i - 1];
          }
        }
      }
    }
  }

  /** `Split` at a leading separator: an empty first part. */
  lemma SplitAtSeparator(s: string, c: char, with: string)
    requires s != [] && s[0] == c
    ensures Split(s, c) == [[]] + Split(s[1..], c)
    ensures Join(with, Split(s, c)) == with + Join(with, Split(s[1..], c))
  {
    var rest := Split(s[1..], c);
    assert ([[]] + rest)[1..] == rest;
    assert Join(with, [[]] + rest) == [] + with + Join(with, rest);
  }

  /** `Split` at any other leading character: it joins the first part. */
  lemma SplitAtOther(s: string, c: char, with: string)
    requires s != [] && s[0] != c
    ensures Join(with, Split(s, c)) == [s[0]] + Join(with, Split(s[1..], c))
  {
    var rest := Split(s[1..], c);
    assert Split(s, c) == [[s[0]] + rest[0]] + rest[1..];
    JoinPrepend(with, [s[0]], rest);
  }

  /** `with.join(s.split(c))` replaces every `c` by `with` and keeps everything else. */
  lemma {:induction false} JoinSplit(s: string, c: char, with: string)
    ensures Join(with, Split(s, c)) == Substitute(s, c, with)
  {
    if s != [] {
      JoinSplit(s[1..], c, with);
      if s[0] == c {
        SplitAtSeparator(s, c, with);
      } else {
        SplitAtOther(s, c, with);
      }
    }
  }

  /** Joining parts free of `c` with a separator free of `c` gives a string free of `c`. */
  lemma {:induction false} JoinAvoids(sep: string, parts: seq<string>, c: char)
    requires c !in sep
    requires forall i :: 0 <= i < |parts| ==> c !in parts[i]
    ensures c !in Join(sep, parts)
  {
    if |parts| > 1 {
      JoinAvoids(sep, parts[1..], c);
    }
  }

  /**
   * The last segment of `s.split(c)`: the text after the last `c`, or all of
   * `s` when there is none (Python's `s.split(c)[-1]`).
   */
  lemma {:induction false} SplitLast(s: string, c: char)
    ensures var r := Last(Split(s, c));
      && c !in r
      && |r| <= |s| && r == s[|s| - |r|..]
      && (|r| < |s| ==> s[|s| - |r| - 1] == c)
  {
    var r := Last(Split(s, c));
    assert c !in r by {
      SplitAvoids(s, c);
    }
    if s != [] {
      var t := s[1..];
      if s[0] != c && |Split(t, c)| == 1 {
        SplitLastWhole(s, c);
      } else {
        assert r == Last(Split(t, c)) by {
          SplitLastStep(s, c);
        }
        SplitLast(t, c);
        assert r == s[|s| - |r|..] by {
          assert t[|t| - |r|..] == s[|s| - |r|..];
        }
        if |r| < |t| {
          assert s[|s| - |r| - 1] == t[|t| - |r| - 1];
        }
      }
    }
  }

  /** When `s[1..]` forms a single part and `s[0]` is no separator, `s` is a single part. */
  lemma SplitLastWhole(s: string, c: char)
    requires s != [] && s[0] != c && |Split(s[1..], c)| == 1
    ensures Last(Split(s, c)) == s
  {
    var rest := Split(s[1..], c);
    assert Split(s, c) == [[s[0]] + rest[0]];
    assert [s[0]] + s[1..] == s;
  }

  /** When `s` does not form a single part, its last part is that of `s[1..]`. */
  lemma SplitLastStep(s: string, c: char)
    requires s != [] && (s[0] == c || |Split(s[1..], c)| != 1)
    ensures Last(Split(s, c)) == Last(Split(s[1..], c))
  {
    var rest := Split(s[1..], c);
    if s[0] == c {
      assert Split(s, c) == [[]] + rest;
    } else {
      assert Split(s, c) == [[s[0]] + rest[0]] + rest[1..];
    }
  }

  /** ASCII lower-casing of one character. */
  function LowerChar(c: char): char {
    if 'A' <= c <= 'Z' then (c as int + 32) as char else c
  }

  /** `s.lower()`, on ASCII letters only. */
  function Lower(s: string): (r: string)
    ensures |r| == |s|
    ensures forall i :: 0 <= i < |s| ==> r[i] == LowerChar(s[i])
  {
    if s == [] then [] else [LowerChar(s[0])] + Lower(s[1..])
  }

  /** `posixpath.join(a, b)`. */
  function PathJoin(a: string, b: string): string {
    if StartsWith(b, "/") then b
    else if a == [] || a[|a| - 1] == '/' then a + b
    else a + "/" + b
  }

  /** `posixpath.basename(p)`: the text after the last '/'. */
  function Basename(p: string): string {
    Last(Split(p, '/'))
  }
}
