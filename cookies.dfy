/**
 * `getCookie(name)` of app.js over the text of `document.cookie`: the cookie
 * string is split at every ';', each segment loses its leading spaces, and
 * the first segment starting with `name=` gives the value after it.
 */
module Cookies {
  import opened Wrappers

  const Separator: char := ';'

  /** `s.split(sep)`: the segments between separators, at least one. */
  function Split(s: string, sep: char): (r: seq<string>)
    ensures |r| >= 1
    ensures forall k :: 0 <= k < |r| ==> sep !in r[k]
    decreases |s|
  {
    if |s| == 0 then [""]
    else
      var rest := Split(s[1..], sep);
      if s[0] == sep then [""] + rest
      else [[s[0]] + rest[0]] + rest[1..]
  }

  /** `parts.join(sep)`. */
  function Join(parts: seq<string>, sep: char): string
    requires |parts| >= 1
    decreases |parts|
  {
    if |parts| == 1 then parts[0] else parts[0] + [sep] + Join(parts[1..], sep)
  }

  /** Joining the segments with the separator gives the string back. */
  lemma {:induction false} JoinSplit(s: string, sep: char)
    ensures Join(Split(s, sep), sep) == s
    decreases |s|
  {
    if |s| > 0 {
      var rest := Split(s[1..], sep);
      JoinSplit(s[1..], sep);
      if s[0] == sep {
        assert Join([""] + rest, sep) == "" + [sep] + Join(rest, sep);
        assert [s[0]] + s[1..] == s;
      } else {
        JoinConsHead(s[0], rest, sep);
        assert [s[0]] + s[1..] == s;
      }
    }
  }

  lemma JoinConsHead(c: char, parts: seq<string>, sep: char)
    requires |parts| >= 1
    ensures Join([[c] + parts[0]] + parts[1..], sep) == [c] + Join(parts, sep)
  {
    var ps := [[c] + parts[0]] + parts[1..];
    if |parts| > 1 {
      assert ps[1..] == parts[1..];
    }
  }

  /** Splitting segments free of the separator, once joined, gives them back. */
  lemma {:induction false} SplitJoin(parts: seq<string>, sep: char)
    requires |parts| >= 1
    requires forall k :: 0 <= k < |parts| ==> sep !in parts[k]
    ensures Split(Join(parts, sep), sep) == parts
    decreases |parts|
  {
    if |parts| == 1 {
      SplitPrefix(parts[0], "", sep);
      assert parts[0] + "" == parts[0];
    } else {
      var tail := Join(parts[1..], sep);
      SplitJoin(parts[1..], sep);
      var after := Split([sep] + tail, sep);
      assert after == [""] + Split(tail, sep) by {
        assert ([sep] + tail)[1..] == tail;
      }
      assert after[0] == "" && after[1..] == parts[1..];
      SplitPrefix(parts[0], [sep] + tail, sep);
      assert Join(parts, sep) == parts[0] + ([sep] + tail);
      assert parts[0] + after[0] == parts[0];
      assert [parts[0]] + parts[1..] == parts;
    }
  }

  /** A separator-free prefix joins the first segment of what follows. */
  lemma {:induction false} SplitPrefix(p: string, t: string, sep: char)
    requires sep !in p
    ensures Split(p + t, sep) == [p + Split(t, sep)[0]] + Split(t, sep)[1..]
    decreases |p|
  {
    if |p| == 0 {
      assert p + t == t;
      assert p + Split(t, sep)[0] == Split(t, sep)[0];
      assert [Split(t, sep)[0]] + Split(t, sep)[1..] == Split(t, sep);
    } else {
      var st := Split(t, sep);
      SplitPrefix(p[1..], t, sep);
      assert (p + t)[1..] == p[1..] + t;
      assert (p + t)[0] == p[0] && p[0] != sep;
      var rest := Split(p[1..] + t, sep);
      assert rest == [p[1..] + st[0]] + st[1..];
      assert Split(p + t, sep) == [[p[0]] + rest[0]] + rest[1..];
      assert rest[0] == p[1..] + st[0] && rest[1..] == st[1..];
      assert [p[0]] + (p[1..] + st[0]) == p + st[0];
    }
  }

  /** The effect of `while (c.charAt(0) === ' ') c = c.substring(1)`. */
  function TrimLeadingSpaces(c: string): (r: string)
    ensures |r| <= |c| && r == c[|c| - |r|..]
    ensures forall k :: 0 <= k < |c| - |r| ==> c[k] == ' '
    ensures r == [] || r[0] != ' '
    decreases |c|
  {
    if |c| > 0 && c[0] == ' ' then
      var r := TrimLeadingSpaces(c[1..]);
      assert c[1..][|c| - 1 - |r|..] == c[|c| - |r|..];
      r
    else c
  }

  /** Segment i, with its leading spaces removed, starts with `nameEQ`. */
  predicate Matches(ca: seq<string>, nameEQ: string, i: int)
    requires 0 <= i < |ca|
  {
    nameEQ <= TrimLeadingSpaces(ca[i])
  }

  /**
   * `getCookie(name)`: the text after `name=` in the first matching segment,
   * None (`null`) when no segment matches. `at` is the matching segment.
   */
  method GetCookie(cookie: string, name: string) returns (r: Option<string>, ghost at: nat)
    ensures var ca := Split(cookie, Separator);
      r.None? <==> forall i :: 0 <= i < |ca| ==> !Matches(ca, name + "=", i)
    ensures var ca := Split(cookie, Separator);
      r.Some? ==>
        && at < |ca| && Matches(ca, name + "=", at)
        && (forall j :: 0 <= j < at ==> !Matches(ca, name + "=", j))
        && r.value == TrimLeadingSpaces(ca[at])[|name + "="|..]
    ensures r.Some? ==> Separator !in r.value
  {
    var nameEQ := name + "=";
    var ca := Split(cookie, Separator);
    at := 0;
    for i := 0 to |ca|
      invariant forall j :: 0 <= j < i ==> !Matches(ca, nameEQ, j)
    {
      var c := TrimSpaces(ca[i]);
      if nameEQ <= c {
        r := Some(c[|nameEQ|..]);
        at := i;
        FoundValue(ca, nameEQ, i);
        assert Matches(ca, name + "=", i);
        assert ca == Split(cookie, Separator);
        assert !(forall j :: 0 <= j < |ca| ==> !Matches(ca, name + "=", j));
        return;
      }
    }
    r := None;
  }

  /** The inner loop of app.js:46. */
  method TrimSpaces(s: string) returns (c: string)
    ensures c == TrimLeadingSpaces(s)
  {
    c := s;
    while |c| > 0 && c[0] == ' '
      invariant TrimLeadingSpaces(c) == TrimLeadingSpaces(s)
      decreases |c|
    {
      c := c[1..];
    }
  }

  /** What a matching segment yields holds no separator. */
  lemma FoundValue(ca: seq<string>, nameEQ: string, i: nat)
    requires i < |ca| && Separator !in ca[i] && Matches(ca, nameEQ, i)
    ensures Separator !in TrimLeadingSpaces(ca[i])[|nameEQ|..]
  {
    var t := TrimLeadingSpaces(ca[i]);
    SuffixKeepsOut(ca[i], |ca[i]| - |t| + |nameEQ|);
    assert t[|nameEQ|..] == ca[i][|ca[i]| - |t| + |nameEQ|..];
  }

  /** A suffix of a separator-free segment is separator-free. */
  lemma SuffixKeepsOut(s: string, n: nat)
    requires n <= |s| && Separator !in s
    ensures Separator !in s[n..]
  {
    forall k | 0 <= k < |s| - n ensures s[n..][k] != Separator {
      assert s[n..][k] == s[n + k];
    }
  }

  /** A cookie string with one `name=value` pair gives the value back. */
  lemma LookupSingle(name: string, value: string)
    requires Separator !in name && Separator !in value
    requires name == [] || name[0] != ' '
    ensures Split(name + "=" + value, Separator) == [name + "=" + value]
    ensures TrimLeadingSpaces(name + "=" + value) == name + "=" + value
    ensures (name + "=" + value)[|name + "="|..] == value
  {
    var s := name + "=" + value;
    SinglePair(name, value);
    SplitJoin([s], Separator);
  }

  lemma SinglePair(name: string, value: string)
    requires Separator !in name && Separator !in value
    requires name == [] || name[0] != ' '
    ensures Separator !in name + "=" + value
    ensures (name + "=" + value)[0] != ' '
    ensures TrimLeadingSpaces(name + "=" + value) == name + "=" + value
  {
    var s := name + "=" + value;
    if name == [] {
      assert s[0] == '=';
    } else {
      assert s[0] == name[0];
    }
  }
}
