/**
 * The two pieces of Ruby's String class the bot relies on: String#strip
 * (applied to every incoming body before matching) and String#split with a
 * one-character separator (applied to the configured jid).
 */
module RubyString {

  /** The characters String#strip removes: NUL, horizontal tab, line feed,
      vertical tab, form feed, carriage return and space. */
  predicate IsSpace(c: char): (ok: bool)
    ensures ok ==> c <= ' '
    ensures c == ' ' || c == '\t' || c == '\n' || c == '\r' ==> ok
  {
    c == '\0' || c == '\t' || c == '\n' || c == '\U{B}' || c == '\U{C}' || c == '\r' || c == ' '
  }

  predicate AllSpaces(s: string) {
    forall k :: 0 <= k < |s| ==> IsSpace(s[k])
  }

  /** A string with no whitespace at either end. */
  predicate Stripped(s: string) {
    s == [] || (!IsSpace(s[0]) && !IsSpace(s[|s| - 1]))
  }

  /** Length of the whitespace run at the start of s. */
  function LeadingSpaces(s: string): (n: nat)
    ensures n <= |s|
    ensures AllSpaces(s[..n])
    ensures n < |s| ==> !IsSpace(s[n])
  {
    if s == [] || !IsSpace(s[0]) then 0 else 1 + LeadingSpaces(s[1..])
  }

  /** Length of the whitespace run at the end of s. */
  function TrailingSpaces(s: string): (n: nat)
    ensures n <= |s|
    ensures AllSpaces(s[|s| - n..])
    ensures n < |s| ==> !IsSpace(s[|s| - 1 - n])
  {
    if s == [] || !IsSpace(s[|s| - 1]) then 0 else 1 + TrailingSpaces(s[..|s| - 1])
  }

  /** String#strip: s without its leading and trailing whitespace. The result
      is the infix of s that starts after the leading run, has no whitespace
      at either end, and leaves only whitespace behind it. */
  function Strip(s: string): (r: string)
    ensures Stripped(r)
    ensures LeadingSpaces(s) + |r| <= |s|
    ensures r == s[LeadingSpaces(s)..LeadingSpaces(s) + |r|]
    ensures AllSpaces(s[LeadingSpaces(s) + |r|..])
  {
    var t := s[LeadingSpaces(s)..];
    var r := t[..|t| - TrailingSpaces(t)];
    assert r != [] ==> r[0] == t[0];
    r
  }

  /** Strip is determined by its contract: whitespace padding around a
      stripped core is removed, and exactly that core remains. */
  lemma StripUnique(a: string, r: string, b: string)
    requires AllSpaces(a) && AllSpaces(b) && Stripped(r)
    ensures Strip(a + r + b) == r
  {
    var s := a + r + b;
    var n := LeadingSpaces(s);
    var q := Strip(s);
    if r == [] {
      AllSpacesConcat(a, b);
      assert s == a + b;
    } else {
      assert s[|a|] == r[0];
      assert n == |a|;
      assert s[|a| + |r| - 1] == r[|r| - 1];
      assert |q| == |r|;
      assert q == s[|a|..|a| + |r|];
    }
  }

  lemma AllSpacesConcat(x: string, y: string)
    requires AllSpaces(x) && AllSpaces(y)
    ensures AllSpaces(x + y)
  {
    forall k | 0 <= k < |x + y| ensures IsSpace((x + y)[k]) {
      if k >= |x| {
        assert (x + y)[k] == y[k - |x|];
      }
    }
  }

  lemma StripIdempotent(s: string)
    ensures Strip(Strip(s)) == Strip(s)
  {
    StripUnique([], Strip(s), []);
    assert [] + Strip(s) + [] == Strip(s);
  }

  /** Any string is its stripped core between two whitespace runs. */
  lemma StripSplits(t: string) returns (a: string, b: string)
    ensures AllSpaces(a) && AllSpaces(b)
    ensures t == a + Strip(t) + b
  {
    var n := LeadingSpaces(t);
    var r := Strip(t);
    a, b := t[..n], t[n + |r|..];
    assert t == a + r + b;
  }

  lemma Regroup(a: string, x: string, r: string, y: string, b: string)
    ensures a + (x + r + y) + b == (a + x) + r + (y + b)
  {
  }

  /** Surrounding whitespace never changes what Strip leaves. */
  lemma StripIgnoresPadding(a: string, t: string, b: string)
    requires AllSpaces(a) && AllSpaces(b)
    ensures Strip(a + t + b) == Strip(t)
  {
    var a', b' := StripSplits(t);
    var r := Strip(t);
    AllSpacesConcat(a, a');
    AllSpacesConcat(b', b);
    assert t == a' + r + b';
    Regroup(a, a', r, b', b);
    StripUnique(a + a', r, b' + b);
  }

  /** Every field of s between occurrences of sep, empty fields included:
      the splitting String#split does before it discards trailing empty
      fields. */
  function Fields(s: string, sep: char): (r: seq<string>)
    ensures |r| >= 1
    ensures forall k :: 0 <= k < |r| ==> sep !in r[k]
  {
    if s == [] then [""]
    else
      var rest := Fields(s[1..], sep);
      if s[0] == sep then [""] + rest
      else [[s[0]] + rest[0]] + rest[1..]
  }

  /** Array#join with a one-character separator. */
  function Join(fields: seq<string>, sep: char): string
    requires |fields| >= 1
  {
    if |fields| == 1 then fields[0] else fields[0] + [sep] + Join(fields[1..], sep)
  }

  /** Joining the fields of s with the separator gives s back. */
  lemma {:induction false} JoinFields(s: string, sep: char)
    ensures Join(Fields(s, sep), sep) == s
  {
    if s != [] {
      var rest := Fields(s[1..], sep);
      JoinFields(s[1..], sep);
      if s[0] == sep {
        assert Fields(s, sep)[1..] == rest;
      } else {
        var f := Fields(s, sep);
        if |rest| == 1 {
          assert f == [[s[0]] + rest[0]];
        } else {
          assert f[1..] == rest[1..];
          assert Join(rest, sep) == rest[0] + [sep] + Join(rest[1..], sep);
        }
      }
    }
  }

  /** A sep-free string is a single field. */
  lemma {:induction false} FieldsOfPlain(a: string, sep: char)
    requires sep !in a
    ensures Fields(a, sep) == [a]
  {
    if a != [] {
      FieldsOfPlain(a[1..], sep);
      assert [a[0]] + a[1..] == a;
    }
  }

  /** Splitting at the first separator: a sep-free prefix becomes the first field. */
  lemma {:induction false} FieldsCons(a: string, b: string, sep: char)
    requires sep !in a
    ensures Fields(a + [sep] + b, sep) == [a] + Fields(b, sep)
  {
    if a == [] {
      assert a + [sep] + b == [sep] + b;
      assert ([sep] + b)[1..] == b;
    } else {
      var s := a + [sep] + b;
      assert s[1..] == a[1..] + [sep] + b;
      FieldsCons(a[1..], b, sep);
      assert [a[0]] + a[1..] == a;
    }
  }

  /** Fields undoes Join when no field holds the separator. */
  lemma {:induction false} FieldsJoin(fields: seq<string>, sep: char)
    requires |fields| >= 1
    requires forall k :: 0 <= k < |fields| ==> sep !in fields[k]
    ensures Fields(Join(fields, sep), sep) == fields
  {
    if |fields| == 1 {
      FieldsOfPlain(fields[0], sep);
    } else {
      FieldsJoin(fields[1..], sep);
      FieldsCons(fields[0], Join(fields[1..], sep), sep);
      assert [fields[0]] + fields[1..] == fields;
    }
  }

  /** The last field, after everything before it and one separator. */
  lemma {:induction false} JoinLast(fields: seq<string>, sep: char)
    requires |fields| >= 2
    ensures Join(fields, sep) == Join(fields[..|fields| - 1], sep) + [sep] + fields[|fields| - 1]
  {
    if |fields| > 2 {
      JoinLast(fields[1..], sep);
      assert fields[1..][..|fields| - 2] == fields[..|fields| - 1][1..];
    }
  }

  /** The first field of s is the text before the first separator (all of s
      when there is none). */
  lemma FirstField(s: string, sep: char)
    ensures var f := Fields(s, sep)[0];
      |f| <= |s| && f == s[..|f|] && sep !in f && (|f| < |s| ==> s[|f|] == sep)
  {
    var fs := Fields(s, sep);
    JoinFields(s, sep);
    if |fs| > 1 {
      assert s == fs[0] + [sep] + Join(fs[1..], sep);
    }
  }

  /** The last field of s is the text after the last separator (all of s
      when there is none). */
  lemma LastField(s: string, sep: char)
    ensures var fs := Fields(s, sep); var l := fs[|fs| - 1];
      |l| <= |s| && l == s[|s| - |l|..] && sep !in l && (|l| < |s| ==> s[|s| - |l| - 1] == sep)
  {
    var fs := Fields(s, sep);
    JoinFields(s, sep);
    if |fs| > 1 {
      JoinLast(fs, sep);
      var p := Join(fs[..|fs| - 1], sep);
      var l := fs[|fs| - 1];
      assert s == p + [sep] + l;
      assert s[|s| - |l|..] == l;
    }
  }

  /** Removes the empty fields at the end, as String#split does. */
  function DropTrailingEmpty(fields: seq<string>): (r: seq<string>)
    ensures r <= fields
    ensures r == [] || r[|r| - 1] != ""
    ensures forall k :: |r| <= k < |fields| ==> fields[k] == ""
  {
    if fields == [] || fields[|fields| - 1] != "" then fields
    else DropTrailingEmpty(fields[..|fields| - 1])
  }

  /** String#split(sep) for a one-character separator other than space. */
  function Split(s: string, sep: char): (r: seq<string>)
    ensures forall k :: 0 <= k < |r| ==> sep !in r[k]
  {
    DropTrailingEmpty(Fields(s, sep))
  }

  /** When s does not end with the separator, no field is dropped. */
  lemma SplitKeepsAll(s: string, sep: char)
    requires s != [] && s[|s| - 1] != sep
    ensures Split(s, sep) == Fields(s, sep)
  {
    var fs := Fields(s, sep);
    var l := fs[|fs| - 1];
    LastField(s, sep);
  }

  /** A separator at the end adds one empty field after the others. */
  lemma {:induction false} FieldsSnoc(s: string, sep: char)
    ensures Fields(s + [sep], sep) == Fields(s, sep) + [""]
  {
    if s != [] {
      assert (s + [sep])[1..] == s[1..] + [sep];
      FieldsSnoc(s[1..], sep);
    }
  }

  /** A separator at the end never changes what split gives. */
  lemma SplitSnoc(s: string, sep: char)
    ensures Split(s + [sep], sep) == Split(s, sep)
  {
    var fs := Fields(s, sep);
    FieldsSnoc(s, sep);
    assert (fs + [""])[..|fs|] == fs;
  }

  /** Any run of separators at the end never changes what split gives. */
  lemma {:induction false} SplitDropsTrailingSeps(s: string, a: string, sep: char)
    requires forall k :: 0 <= k < |a| ==> a[k] == sep
    ensures Split(s + a, sep) == Split(s, sep)
  {
    if a != [] {
      var b := a[..|a| - 1];
      assert a == b + [sep];
      assert s + a == (s + b) + [sep];
      SplitSnoc(s + b, sep);
      SplitDropsTrailingSeps(s, b, sep);
    } else {
      assert s + a == s;
    }
  }

  /** When s ends in a run of separators after some other character, the
      last element of the split is the last field of s without that run. */
  lemma SplitLastDropsSeps(s: string, a: string, sep: char)
    requires s != [] && s[|s| - 1] != sep
    requires forall k :: 0 <= k < |a| ==> a[k] == sep
    ensures var r := Split(s + a, sep); var fs := Fields(s, sep);
      r != [] && r[|r| - 1] == fs[|fs| - 1]
  {
    SplitDropsTrailingSeps(s, a, sep);
    SplitKeepsAll(s, sep);
  }

  /** Split yields nothing exactly when s consists of separators only
      (the empty string included). */
  lemma SplitEmpty(s: string, sep: char)
    ensures Split(s, sep) == [] <==> forall k :: 0 <= k < |s| ==> s[k] == sep
  {
    var fs := Fields(s, sep);
    JoinFields(s, sep);
    if Split(s, sep) == [] {
      forall k | 0 <= k < |s| ensures s[k] == sep {
        AllEmptyJoin(fs, sep, k);
      }
    } else {
      var r := Split(s, sep);
      var i := |r| - 1;
      assert fs[i] == r[i] != "";
      var j := JoinOffset(fs, sep, i);
      assert s[j] == fs[i][0];
      assert fs[i][0] != sep;
    }
  }

  /** Position in Join(fields) at which field i starts. */
  function JoinOffset(fields: seq<string>, sep: char, i: nat): (j: nat)
    requires i < |fields|
    ensures j + |fields[i]| <= |Join(fields, sep)|
    ensures Join(fields, sep)[j..j + |fields[i]|] == fields[i]
  {
    if i == 0 then 0
    else
      var j := |fields[0]| + 1 + JoinOffset(fields[1..], sep, i - 1);
      assert Join(fields, sep) == fields[0] + [sep] + Join(fields[1..], sep);
      j
  }

  /** When every field is empty, the joined text is separators only. */
  lemma {:induction false} AllEmptyJoin(fields: seq<string>, sep: char, k: nat)
    requires |fields| >= 1
    requires forall i :: 0 <= i < |fields| ==> fields[i] == ""
    requires k < |Join(fields, sep)|
    ensures Join(fields, sep)[k] == sep
  {
    if |fields| > 1 {
      assert Join(fields, sep) == [sep] + Join(fields[1..], sep);
      if k > 0 {
        AllEmptyJoin(fields[1..], sep, k - 1);
      }
    }
  }
}
