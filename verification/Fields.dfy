/** Splitting a text into fields, with the semantics of repeated `getline` on a string stream, against
    joining fields with a delimiter. */
module Fields {
  import opened Sequences

  /** The first position of `d` from `from` on, or the length if there is none. */
  function Find(s: string, d: char, from: nat): (i: nat)
    requires from <= |s|
    ensures from <= i <= |s|
    decreases |s| - from
  {
    if from == |s| || s[from] == d then from else Find(s, d, from + 1)
  }

  lemma {:induction false} FindIsFirst(s: string, d: char, from: nat, n: nat)
    requires from <= n <= |s| && (forall k :: from <= k < n ==> s[k] != d) && (n < |s| ==> s[n] == d)
    ensures Find(s, d, from) == n
    decreases n - from
  {
    if from == n {
    } else {
      FindIsFirst(s, d, from + 1, n);
    }
  }

  lemma {:induction false} FindStops(s: string, d: char, from: nat)
    requires from <= |s|
    ensures var i := Find(s, d, from);
            d !in s[from..i] && (i < |s| ==> s[i] == d)
    decreases |s| - from
  {
    if from == |s| || s[from] == d {
    } else {
      FindStops(s, d, from + 1);
      var i := Find(s, d, from + 1);
      assert s[from..i] == [s[from]] + s[from + 1..i];
    }
  }

  /** Fields are cut at delimiters; reading stops when nothing is left, so a field that would start at
      the very end of the text does not exist. */
  function Split(s: string, d: char): seq<string>
    decreases |s|
  {
    if s == "" then [] else
    var i := Find(s, d, 0);
    [s[..i]] + if i == |s| then [] else Split(s[i + 1..], d)
  }

  function Join(fields: seq<string>, d: char): string {
    if fields == [] then ""
    else if |fields| == 1 then fields[0]
    else fields[0] + [d] + Join(fields[1..], d)
  }

  /** One `getline` from `pos`: the text up to the delimiter, which is consumed, or up to the end. */
  method GetLine(input: string, pos: nat, delimiter: char) returns (item: string, next: nat)
    requires pos < |input|
    ensures pos < next <= |input|
    ensures Split(input[pos..], delimiter) == [item] + Split(input[next..], delimiter)
  {
    var end := pos;
    item := "";
    while end < |input| && input[end] != delimiter
      invariant pos <= end <= |input|
      invariant item == input[pos..end]
      invariant forall k :: pos <= k < end ==> input[k] != delimiter
    {
      SliceGrows(input, pos, end);
      item := item + [input[end]];
      end := end + 1;
    }
    next := if end < |input| then end + 1 else end;
    SplitAt(input, pos, end, next, delimiter);
  }

  /** `splitString`: read lines until nothing is left to extract. */
  method SplitString(input: string, delimiter: char) returns (result: seq<string>)
    ensures result == Split(input, delimiter)
  {
    result := [];
    var pos := 0;
    assert input[0..] == input;
    while pos < |input|
      invariant 0 <= pos <= |input|
      invariant result + Split(input[pos..], delimiter) == Split(input, delimiter)
    {
      var item, next := GetLine(input, pos, delimiter);
      Regroup(result, [item], Split(input[next..], delimiter));
      result := result + [item];
      pos := next;
    }
    assert input[pos..] == "";
  }

  lemma SliceGrows(s: string, from: nat, to: nat)
    requires from <= to < |s|
    ensures s[from..to] + [s[to]] == s[from..to + 1]
  {
  }

  lemma CutAt(s: string, i: nat)
    requires i < |s|
    ensures s == s[..i] + [s[i]] + s[i + 1..]
  {
  }

  lemma SplitAt(input: string, pos: nat, end: nat, next: nat, d: char)
    requires pos <= end <= |input| && pos < |input| && next == if end < |input| then end + 1 else end
    requires forall k :: pos <= k < end ==> input[k] != d
    requires end < |input| ==> input[end] == d
    ensures Split(input[pos..], d) == [input[pos..end]] + Split(input[next..], d)
  {
    var s := input[pos..];
    FirstDelimiter(s, end - pos, d);
    assert s[..end - pos] == input[pos..end];
    if end < |input| {
      assert s[end - pos + 1..] == input[next..];
    } else {
      assert input[next..] == "";
    }
  }

  /** A delimiter-free prefix that ends the text or is followed by the delimiter is the first field. */
  lemma FirstDelimiter(s: string, n: nat, d: char)
    requires s != "" && n <= |s| && (forall k :: 0 <= k < n ==> s[k] != d) && (n < |s| ==> s[n] == d)
    ensures Find(s, d, 0) == n
    ensures Split(s, d) == [s[..n]] + if n == |s| then [] else Split(s[n + 1..], d)
  {
    FindIsFirst(s, d, 0, n);
  }

  lemma SplitCons(f: string, d: char, rest: string)
    requires d !in f
    ensures Split(f + [d] + rest, d) == [f] + Split(rest, d)
  {
    var s := f + [d] + rest;
    FirstDelimiter(s, |f|, d);
    assert s[..|f|] == f && s[|f| + 1..] == rest;
  }

  lemma SplitWhole(f: string, d: char)
    requires d !in f && f != ""
    ensures Split(f, d) == [f]
  {
    FirstDelimiter(f, |f|, d);
    assert f[..|f|] == f;
  }

  predicate FreeOf(fields: seq<string>, d: char) {
    forall i :: 0 <= i < |fields| ==> d !in fields[i]
  }

  predicate EndsWith(s: string, d: char) {
    s != "" && s[|s| - 1] == d
  }

  /** Splitting a join of delimiter-free fields gives the fields back exactly when the last one is not
      empty. */
  lemma {:induction false} SplitJoin(fields: seq<string>, d: char)
    requires FreeOf(fields, d)
    ensures Split(Join(fields, d), d) == fields <==> fields == [] || fields[|fields| - 1] != ""
    decreases |fields|
  {
    if fields == [] {
    } else if |fields| == 1 {
      if fields[0] != "" { SplitWhole(fields[0], d); }
    } else {
      SplitJoin(fields[1..], d);
      SplitCons(fields[0], d, Join(fields[1..], d));
      assert fields == [fields[0]] + fields[1..];
    }
  }

  /** The text less one trailing delimiter. */
  function Trimmed(s: string, d: char): string {
    if EndsWith(s, d) then s[..|s| - 1] else s
  }

  lemma TrimmedCut(s: string, i: nat, d: char)
    requires i < |s| && s[i] == d
    ensures Trimmed(s, d) == if s[i + 1..] == "" then s[..i] else s[..i] + [d] + Trimmed(s[i + 1..], d)
  {
    CutAt(s, i);
  }

  /** Joining a split gives the text back, less one trailing delimiter. */
  lemma {:induction false} JoinSplit(s: string, d: char)
    ensures Join(Split(s, d), d) == if EndsWith(s, d) then s[..|s| - 1] else s
    ensures FreeOf(Split(s, d), d) && (Split(s, d) == [] <==> s == "")
    decreases |s|
  {
    if s == "" {
    } else {
      var i := Find(s, d, 0);
      FindStops(s, d, 0);
      if i == |s| {
        assert s[..i] == s;
        assert Split(s, d) == [s];
      } else {
        JoinSplit(s[i + 1..], d);
        TrimmedCut(s, i, d);
        JoinCons(s[..i], Split(s[i + 1..], d), d);
        assert Split(s, d) == [s[..i]] + Split(s[i + 1..], d);
      }
    }
  }

  lemma JoinCons(f: string, fields: seq<string>, d: char)
    ensures Join([f] + fields, d) == if fields == [] then f else f + [d] + Join(fields, d)
  {
    assert ([f] + fields)[1..] == fields;
  }

  /** The empty field that another delimiter would complete. */
  function Pending(s: string, d: char): seq<string> {
    if s == "" || EndsWith(s, d) then [""] else []
  }

  /** Appending the delimiter and a tag makes the tag the last field and keeps all earlier fields; an
      empty field appears between them where the text was empty or ended with a delimiter. */
  lemma {:induction false} TagIsLast(s: string, d: char, tag: string)
    requires d !in tag && tag != ""
    ensures Split(s + [d] + tag, d) == Split(s, d) + Pending(s, d) + [tag]
    decreases |s|
  {
    SplitWhole(tag, d);
    if s == "" {
      SplitCons(s, d, tag);
    } else {
      var i := Find(s, d, 0);
      FindStops(s, d, 0);
      if i == |s| {
        assert s[..i] == s;
        SplitCons(s, d, tag);
        SplitWhole(s, d);
      } else {
        TagIsLast(s[i + 1..], d, tag);
        TagStep(s[..i], s[i + 1..], d, tag);
        CutAt(s, i);
      }
    }
  }

  lemma TagStep(f: string, rest: string, d: char, tag: string)
    requires d !in f
    requires Split(rest + [d] + tag, d) == Split(rest, d) + Pending(rest, d) + [tag]
    ensures var s := f + [d] + rest;
            Split(s + [d] + tag, d) == Split(s, d) + Pending(s, d) + [tag]
  {
    var s := f + [d] + rest;
    SplitCons(f, d, rest);
    SplitCons(f, d, rest + [d] + tag);
    RegroupText(f, [d], rest, [d], tag);
    assert Pending(s, d) == Pending(rest, d);
    Regroup([f], Split(rest, d) + Pending(rest, d), [tag]);
    Regroup([f], Split(rest, d), Pending(rest, d));
  }

  lemma RegroupText(a: string, b: string, c: string, e: string, f: string)
    ensures a + b + c + e + f == a + b + (c + e + f)
  {
  }
}
