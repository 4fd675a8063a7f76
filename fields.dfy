/**
 * Splitting one text line into comma-separated fields, as the loaders of hms.cpp do with
 * repeated `std::getline(ss, field, ',')` on a string stream over the line.
 *
 * Each call stores the text up to the next ',' and consumes that comma. Once the line is
 * used up, every further call fails and leaves its (fresh, empty) field empty, so missing
 * trailing fields are empty strings and text after the last expected field is ignored.
 */
module Fields {

  /** Number of characters before the first ',' of `s` (all of `s` when it has none). */
  function FieldEnd(s: string): (k: nat)
    ensures k <= |s|
    ensures forall i :: 0 <= i < k ==> s[i] != ','
    ensures k < |s| ==> s[k] == ','
  {
    if s == [] || s[0] == ',' then 0 else 1 + FieldEnd(s[1..])
  }

  /** One `getline(ss, field, ',')`: the field read and the text left in the stream. */
  function NextField(s: string): (r: (string, string))
    ensures ',' !in r.0
    ensures ',' in s ==> s == r.0 + "," + r.1
    ensures ',' !in s ==> r.0 == s && r.1 == ""
  {
    var k := FieldEnd(s);
    if k < |s| then
      assert s == s[..k] + "," + s[k + 1..];
      (s[..k], s[k + 1..])
    else
      (s, "")
  }

  /** The first `n` fields of a line, read one after another. */
  function SplitFields(s: string, n: nat): (fs: seq<string>)
    ensures |fs| == n
    ensures forall i :: 0 <= i < n ==> ',' !in fs[i]
    decreases n
  {
    if n == 0 then []
    else
      var (field, rest) := NextField(s);
      [field] + SplitFields(rest, n - 1)
  }

  /** `k` empty fields. */
  function Blanks(k: nat): seq<string>
  {
    seq(k, _ => "")
  }

  /** The line a comma-separated record file holds for the fields `fs`. */
  function JoinFields(fs: seq<string>): string
  {
    if |fs| == 0 then ""
    else if |fs| == 1 then fs[0]
    else fs[0] + "," + JoinFields(fs[1..])
  }

  /** The first comma of `f + t` is the one `t` starts with. */
  lemma {:induction false} FieldEndOf(f: string, t: string)
    requires ',' !in f
    requires t == [] || t[0] == ','
    ensures FieldEnd(f + t) == |f|
  {
    if f != [] {
      assert (f + t)[1..] == f[1..] + t;
      FieldEndOf(f[1..], t);
    }
  }

  /** Reading a field that is followed by the end of the line or by a comma. */
  lemma NextFieldOf(f: string, t: string)
    requires ',' !in f
    requires t == [] || t[0] == ','
    ensures NextField(f + t) == (f, if t == [] then [] else t[1..])
  {
    var s := f + t;
    var k := FieldEnd(s);
    FieldEndOf(f, t);
    assert s[..k] == f;
    if t == [] {
      assert s == f;
    } else {
      assert s[k + 1..] == t[1..];
    }
  }

  /** Splitting the empty rest of a line yields only empty fields. */
  lemma {:induction false} SplitEmpty(n: nat)
    ensures SplitFields("", n) == Blanks(n)
  {
    if n > 0 {
      SplitEmpty(n - 1);
    }
  }

  /** A line holding one comma-free field. */
  lemma SplitJoinOne(fs: seq<string>, t: string, n: nat)
    requires |fs| == 1 && ',' !in fs[0]
    requires 1 <= n
    requires 1 < n ==> t == []
    requires t == [] || t[0] == ','
    ensures SplitFields(JoinFields(fs) + t, n) == fs + Blanks(n - 1)
  {
    var f := fs[0];
    assert JoinFields(fs) + t == f + t;
    var rest: string := if t == [] then [] else t[1..];
    NextFieldOf(f, t);
    assert SplitFields(f + t, n) == [f] + SplitFields(rest, n - 1);
    if n > 1 {
      SplitEmpty(n - 1);
    }
  }

  /** A line of two or more fields is the first field, a comma and the line of the others. */
  lemma JoinCons(fs: seq<string>)
    requires 2 <= |fs|
    ensures JoinFields(fs) == fs[0] + "," + JoinFields(fs[1..])
  {
  }

  /** Reading a field that a comma ends leaves the text after that comma. */
  lemma NextFieldBeforeComma(f: string, rest: string)
    requires ',' !in f
    ensures NextField(f + "," + rest) == (f, rest)
  {
    assert f + "," + rest == f + ("," + rest);
    NextFieldOf(f, "," + rest);
    assert ("," + rest)[1..] == rest;
  }

  /** The fields of a line are its first field followed by the fields of the rest. */
  lemma SplitAfterField(line: string, n: nat, f: string, rest: string, others: seq<string>)
    requires n >= 1
    requires NextField(line) == (f, rest)
    requires SplitFields(rest, n - 1) == others
    ensures SplitFields(line, n) == [f] + others
  {
  }

  /** Reading the first of several comma-free fields leaves the line of the others. */
  lemma SplitCons(fs: seq<string>, t: string, n: nat)
    requires 2 <= |fs| <= n
    requires ',' !in fs[0]
    requires SplitFields(JoinFields(fs[1..]) + t, n - 1) == fs[1..] + Blanks(n - |fs|)
    ensures SplitFields(JoinFields(fs) + t, n) == fs + Blanks(n - |fs|)
  {
    var rest := JoinFields(fs[1..]) + t;
    var line := JoinFields(fs) + t;
    JoinCons(fs);
    assert line == fs[0] + "," + rest;
    NextFieldBeforeComma(fs[0], rest);
    SplitAfterField(line, n, fs[0], rest, fs[1..] + Blanks(n - |fs|));
    assert fs == [fs[0]] + fs[1..];
  }

  /**
   * Splitting a line written from comma-free fields gives those fields back, padded with
   * empty fields when the line has fewer than `n`; anything after a further comma is dropped.
   */
  lemma {:induction false} SplitJoin(fs: seq<string>, t: string, n: nat)
    requires forall i :: 0 <= i < |fs| ==> ',' !in fs[i]
    requires |fs| <= n
    requires |fs| < n ==> t == []
    requires t == [] || t[0] == ','
    ensures SplitFields(JoinFields(fs) + t, n) == fs + Blanks(n - |fs|)
  {
    if n == 0 {
    } else if |fs| == 0 {
      assert JoinFields(fs) + t == "";
      SplitEmpty(n);
    } else if |fs| == 1 {
      SplitJoinOne(fs, t, n);
    } else {
      SplitJoin(fs[1..], t, n - 1);
      SplitCons(fs, t, n);
    }
  }

  /** Text made of three comma-free parts joined by commas splits back into them. */
  lemma TextOfThree(a: string, b: string, c: string, text: string)
    requires ',' !in a && ',' !in b && ',' !in c
    requires text == a + "," + b + "," + c
    ensures SplitFields(text, 3) == [a, b, c]
  {
    var fs := [a, b, c];
    assert fs[1..][1..] == [c];
    assert JoinFields(fs[1..]) == b + "," + c;
    assert text == JoinFields(fs) + "";
    SplitJoin(fs, "", 3);
  }

  /** Moving the two separating commas of a three-part text to the part boundaries. */
  lemma Regroup(a1: string, a2: string, b1: string, b2: string, b3: string, c1: string, c2: string)
    ensures a1 + a2 + ("," + b1) + b2 + (b3 + "," + c1) + c2
      == (a1 + a2) + "," + (b1 + b2 + b3) + "," + (c1 + c2)
  {
  }
}
