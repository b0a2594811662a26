/**
 * The Python string and path operations the fashion-files code relies on:
 * `str.lower`, `str.capitalize`, `str.startswith`, `str.endswith`,
 * `str.rfind`, `str.format` with `{}` placeholders, and `PurePath.name` /
 * `PurePath.stem`. Case mapping covers ASCII letters only.
 */
module Text {

  function LowerChar(c: char): char
  {
    if 'A' <= c <= 'Z' then (c as int + 32) as char else c
  }

  function UpperChar(c: char): char
  {
    if 'a' <= c <= 'z' then (c as int - 32) as char else c
  }

  /** `s.lower()` */
  function Lower(s: string): (r: string)
    ensures |r| == |s|
  {
    seq(|s|, i requires 0 <= i < |s| => LowerChar(s[i]))
  }

  /** `s.capitalize()`: the first character upper-cased, all others lower-cased. */
  function Capitalize(s: string): (r: string)
    ensures |r| == |s|
    ensures Lower(r) == Lower(s)
    ensures r != [] ==> !('a' <= r[0] <= 'z')
    ensures forall i :: 0 < i < |r| ==> !('A' <= r[i] <= 'Z')
  {
    if s == [] then [] else [UpperChar(s[0])] + Lower(s[1..])
  }

  /** Capitalising sees only the letters, not their case: strings equal up to case capitalise alike. */
  lemma CapitalizeIgnoresCase(s: string, t: string)
    requires Lower(s) == Lower(t)
    ensures Capitalize(s) == Capitalize(t)
  {
    if s != [] {
      assert LowerChar(s[0]) == Lower(s)[0] == Lower(t)[0] == LowerChar(t[0]);
      assert Lower(s[1..]) == Lower(s)[1..] == Lower(t)[1..] == Lower(t[1..]);
    }
  }

  lemma LowerConcat(a: string, b: string)
    ensures Lower(a + b) == Lower(a) + Lower(b)
  {
  }

  /** `s.startswith(prefix)` */
  predicate StartsWith(s: string, prefix: string)
    decreases |prefix|
  {
    prefix == [] || (s != [] && s[0] == prefix[0] && StartsWith(s[1..], prefix[1..]))
  }

  /** `startswith` agrees with the slice definition: the prefix fits and the string begins with it. */
  lemma {:induction false} StartsWithIsPrefix(s: string, prefix: string)
    ensures StartsWith(s, prefix) <==> |prefix| <= |s| && s[..|prefix|] == prefix
    decreases |prefix|
  {
    if prefix != [] && s != [] {
      StartsWithIsPrefix(s[1..], prefix[1..]);
      if |prefix| <= |s| {
        assert s[..|prefix|] == [s[0]] + s[1..][..|prefix| - 1];
        assert prefix == [prefix[0]] + prefix[1..];
      }
    }
  }

  /** `s.endswith(suffix)` */
  predicate EndsWith(s: string, suffix: string)
  {
    |suffix| <= |s| && s[|s| - |suffix|..] == suffix
  }

  /** `s.rfind(c)`: the last index holding `c`, or -1. */
  function LastIndexOf(s: string, c: char): (i: int)
    ensures -1 <= i < |s|
    ensures i >= 0 ==> s[i] == c
    ensures forall j :: i < j < |s| ==> s[j] != c
  {
    LastIndexBelow(s, c, |s|)
  }

  /** The last index below `n` holding `c`, or -1. */
  function LastIndexBelow(s: string, c: char, n: nat): (i: int)
    requires n <= |s|
    ensures -1 <= i < n
    ensures i >= 0 ==> s[i] == c
    ensures forall j :: i < j < n ==> s[j] != c
  {
    if n == 0 then -1
    else if s[n - 1] == c then n - 1
    else LastIndexBelow(s, c, n - 1)
  }

  /** `PurePath(path).name`: the characters after the last `/`. */
  function Name(path: string): (name: string)
  {
    if path == [] || path[|path| - 1] == '/' then []
    else Name(path[..|path| - 1]) + [path[|path| - 1]]
  }

  /**
   * The name is the last component: a suffix of the path holding no `/`,
   * which is either the whole path or follows a `/`.
   */
  lemma {:induction false} NameIsLastComponent(path: string)
    ensures var name := Name(path);
            && |name| <= |path| && path[|path| - |name|..] == name && '/' !in name
            && (|name| == |path| || path[|path| - |name| - 1] == '/')
  {
    if path != [] && path[|path| - 1] != '/' {
      var init := path[..|path| - 1];
      NameIsLastComponent(init);
      var name := Name(init);
      assert path[|path| - |name| - 1..] == path[|path| - |name| - 1..|path| - 1] + [path[|path| - 1]];
      assert path[|path| - |name| - 1..|path| - 1] == init[|init| - |name|..];
      if |name| < |init| {
        assert path[|path| - |name| - 2] == init[|init| - |name| - 1];
      }
    }
  }

  /**
   * `PurePath(path).stem`: the name without its final suffix; a dot that
   * starts or ends the name does not begin a suffix.
   */
  function Stem(path: string): (stem: string)
  {
    var name := Name(path);
    var dot := LastIndexOf(name, '.');
    if 0 < dot < |name| - 1 then name[..dot] else name
  }

  /**
   * The stem of `directory/base.extension` is `base` when the base is a non-empty
   * name (dots inside it stay, as the last dot is the one before the extension);
   * with an empty base the whole name `.extension` is the stem.
   */
  lemma StemOfFileName(directory: string, base: string, extension: string)
    requires '/' !in base
    requires '/' !in extension && '.' !in extension && extension != ""
    ensures Stem(directory + "/" + base + "." + extension) == if base == "" then "." + extension else base
  {
    var name := base + "." + extension;
    assert '/' !in name;
    NameAfterLastSeparator(directory, name);
    assert directory + "/" + base + "." + extension == directory + "/" + name;
    LastIndexOfBeforeFreeSuffix(base, '.', extension);
  }

  /** The name of `directory/name` is `name` when `name` holds no separator. */
  lemma {:induction false} NameAfterLastSeparator(directory: string, name: string)
    requires '/' !in name
    ensures Name(directory + "/" + name) == name
  {
    var path := directory + "/" + name;
    if name == [] {
      assert path[|path| - 1] == '/';
    } else {
      var n := |name| - 1;
      NameAfterLastSeparator(directory, name[..n]);
      assert path[..|path| - 1] == directory + "/" + name[..n];
      assert path[|path| - 1] == name[n];
      assert name == name[..n] + [name[n]];
    }
  }

  /** In `prefix + [c] + suffix`, where `suffix` holds no `c`, the last `c` is the one after `prefix`. */
  lemma LastIndexOfBeforeFreeSuffix(prefix: string, c: char, suffix: string)
    requires c !in suffix
    ensures LastIndexOf(prefix + [c] + suffix, c) == |prefix|
  {
    var s := prefix + [c] + suffix;
    var last := LastIndexOf(s, c);
    assert s[|prefix|] == c;
  }

  /**
   * `str.format` on a template whose literal text is `pieces` with one `{}`
   * between consecutive pieces: the placeholders take the arguments in order.
   */
  function Format(pieces: seq<string>, args: seq<string>): string
    requires |pieces| > 0 && |args| >= |pieces| - 1
    decreases |pieces|
  {
    if |pieces| == 1 then pieces[0]
    else pieces[0] + args[0] + Format(pieces[1..], args[1..])
  }

  /** Arguments beyond the last placeholder are ignored, without error. */
  lemma {:induction false} FormatIgnoresSurplusArguments(pieces: seq<string>, args: seq<string>)
    requires |pieces| > 0 && |args| >= |pieces| - 1
    ensures Format(pieces, args) == Format(pieces, args[..|pieces| - 1])
  {
    if |pieces| > 1 {
      FormatIgnoresSurplusArguments(pieces[1..], args[1..]);
      assert args[..|pieces| - 1][1..] == args[1..][..|pieces| - 2];
    }
  }
}
