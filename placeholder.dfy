/** Placeholder substitution of `Generator::processFrame` and
    `JSONWorker::process`: the frame is split into fields and, for the ids
    `%1`, `%2`, ... in that order, every occurrence of the id in the template
    text is replaced by its field, scanning left to right and resuming after
    the inserted value. */
module Placeholder {
  import opened Text

  function DigitChar(d: int): char
    requires 0 <= d < 10
  {
    "0123456789"[d]
  }

  predicate IsDigit(c: char)
  {
    '0' <= c <= '9'
  }

  /** The number a string of decimal digits denotes. */
  function DigitsValue(s: string): nat
    requires forall i :: 0 <= i < |s| ==> IsDigit(s[i])
    decreases |s|
  {
    if s == [] then 0
    else
      assert IsDigit(s[|s| - 1]);
      10 * DigitsValue(s[..|s| - 1]) + (s[|s| - 1] as int - '0' as int)
  }

  /** `std::to_string(n)` for a non-negative integer: the digits of `n`,
      without leading zeros. */
  function Decimal(n: nat): (r: string)
    ensures |r| >= 1
    ensures forall i :: 0 <= i < |r| ==> IsDigit(r[i])
    ensures DigitsValue(r) == n
    ensures |r| > 1 ==> r[0] != '0'
    decreases n
  {
    if n < 10 then [DigitChar(n)]
    else
      var init := Decimal(n / 10);
      var r := init + [DigitChar(n % 10)];
      assert r[..|r| - 1] == init;
      r
  }

  /** The placeholder of the field at 1-based position `k`: `"%" + std::to_string(k)`. */
  function Id(k: nat): (r: string)
    ensures |r| >= 2 && r[0] == '%'
  {
    "%" + Decimal(k)
  }

  /** What the replace loop computes for one id: the text between the
      leftmost non-overlapping occurrences of `id`, joined by `value`. */
  function Replace(s: string, id: string, value: string): string
    requires id != []
  {
    Join(SplitOn(s, id), value)
  }

  /** One step of the loop: the first occurrence at or after `start` is
      replaced and the rest is scanned as it was before the replacement. */
  lemma ReplaceStep(s: string, id: string, value: string, start: nat, pos: int)
    requires id != [] && start <= |s|
    requires pos == IndexOf(s, id, start) && pos != -1
    ensures Replace(s[start..], id, value) == s[start..pos] + value + Replace(s[pos + |id|..], id, value)
  {
    var t := s[start..];
    IndexOfShift(s, id, start);
    var q := pos - start;
    SplitOnAt(t, id, q);
    assert t[..q] == s[start..pos];
    assert t[q + |id|..] == s[pos + |id|..];
    JoinCons(s[start..pos], SplitOn(s[pos + |id|..], id), value);
  }

  /** The loop stops: no occurrence at or after `start`, so the rest is kept. */
  lemma ReplaceDone(s: string, id: string, value: string, start: nat)
    requires id != [] && start <= |s|
    requires IndexOf(s, id, start) == -1
    ensures Replace(s[start..], id, value) == s[start..]
  {
    IndexOfShift(s, id, start);
    SplitOnAbsent(s[start..], id);
  }

  /** The text after a replacement at `pos`, cut where the scan resumes. */
  lemma SpliceSlices(json: string, start: nat, pos: nat, idLength: nat, value: string)
    requires start <= pos && pos + idLength <= |json|
    ensures var next := json[..pos] + value + json[pos + idLength..];
      && next[..pos + |value|] == json[..start] + json[start..pos] + value
      && next[pos + |value|..] == json[pos + idLength..]
  {
    assert json[..pos] == json[..start] + json[start..pos];
  }

  /** The loop invariant survives one replacement. */
  lemma ReplaceAllStep(json: string, id: string, value: string, start: nat, pos: nat)
    requires id != [] && start <= pos && pos + |id| <= |json|
    requires Replace(json[start..], id, value) == json[start..pos] + value + Replace(json[pos + |id|..], id, value)
    ensures var next := json[..pos] + value + json[pos + |id|..];
      && pos + |value| <= |next|
      && |next| - (pos + |value|) < |json| - start
      && json[..start] + Replace(json[start..], id, value)
         == next[..pos + |value|] + Replace(next[pos + |value|..], id, value)
  {
    SpliceSlices(json, start, pos, |id|, value);
    var tail := Replace(json[pos + |id|..], id, value);
    assert json[..start] + (json[start..pos] + value + tail) == (json[..start] + json[start..pos] + value) + tail;
  }

  /** The `while (json.find(id, start_pos) != npos)` loop, in place on `json`. */
  method ReplaceAll(template: string, id: string, value: string) returns (json: string)
    requires id != []
    ensures json == Replace(template, id, value)
  {
    json := template;
    var start := 0;
    var pos := IndexOf(json, id, start);
    while pos != -1
      invariant 0 <= start <= |json|
      invariant pos == IndexOf(json, id, start)
      invariant Replace(template, id, value) == json[..start] + Replace(json[start..], id, value)
      decreases |json| - start
    {
      ReplaceStep(json, id, value, start, pos);
      ReplaceAllStep(json, id, value, start, pos);
      json := json[..pos] + value + json[pos + |id|..];
      start := pos + |value|;
      pos := IndexOf(json, id, start);
    }
    ReplaceDone(json, id, value, start);
    assert json == json[..start] + json[start..];
  }

  /** The template after the ids `%1 .. %n` of the `n` fields have been
      replaced one after the other, in increasing order. */
  function Substituted(template: string, fields: seq<string>): string
    decreases |fields|
  {
    if fields == [] then template
    else Replace(Substituted(template, fields[..|fields| - 1]), Id(|fields|), fields[|fields| - 1])
  }

  /** The `for (int i = 0; i < list.count(); ++i)` loop over the frame's fields. */
  method Substitute(template: string, fields: seq<string>) returns (json: string)
    ensures json == Substituted(template, fields)
  {
    json := template;
    for i := 0 to |fields|
      invariant json == Substituted(template, fields[..i])
    {
      assert fields[..i + 1][..i] == fields[..i];
      json := ReplaceAll(json, Id(i + 1), fields[i]);
    }
    assert fields[..|fields|] == fields;
  }

  /** Replacing an id means: cut the text at every occurrence of the id and put
      the value in every cut, so all occurrences get the same value and the
      text between them is kept. */
  lemma ReplaceCharacterization(s: string, id: string, value: string)
    requires id != []
    ensures var parts := SplitOn(s, id);
      && s == Join(parts, id)
      && Replace(s, id, value) == Join(parts, value)
      && forall part :: part in parts ==> !Contains(part, id)
  {
    SplitOnJoin(s, id);
    SplitOnPartsFree(s, id);
  }

  /** A text without the id is left unchanged. */
  lemma ReplaceAbsent(s: string, id: string, value: string)
    requires id != [] && !Contains(s, id)
    ensures Replace(s, id, value) == s
  {
    SplitOnAbsent(s, id);
  }

  /** A text that starts with the id (and has no other occurrence) gets the
      value once, even when the value itself contains the id: the scan resumes
      after the inserted value. */
  lemma ReplaceLeading(id: string, rest: string, value: string)
    requires id != [] && !Contains(rest, id)
    ensures Replace(id + rest, id, value) == value + rest
  {
    var s := id + rest;
    assert s[0..|id|] == id;
    assert OccursAt(s, id, 0);
    SplitOnAt(s, id, 0);
    assert s[|id|..] == rest;
    SplitOnAbsent(rest, id);
    assert s[..0] == "";
    JoinCons("", [rest], value);
  }

  /** The same id never re-expands its own replacement. */
  lemma ReplaceNoReexpansion(id: string, value: string)
    requires id != []
    ensures Replace(id, id, value) == value
  {
    assert IndexOf("", id, 0) == -1;
    ReplaceLeading(id, "", value);
    assert id + "" == id;
    assert value + "" == value;
  }

  /** A template that contains none of the ids `%1 .. %n` comes back unchanged. */
  lemma {:induction false} SubstitutedUntouched(template: string, fields: seq<string>)
    requires forall k :: 1 <= k <= |fields| ==> !Contains(template, Id(k))
    ensures Substituted(template, fields) == template
    decreases |fields|
  {
    if fields != [] {
      SubstitutedUntouched(template, fields[..|fields| - 1]);
      ReplaceAbsent(template, Id(|fields|), fields[|fields| - 1]);
    }
  }

  /** The id of `k` is a prefix of the id of `10 * k + d`: `%1` is a prefix of `%10` .. `%19`. */
  lemma IdPrefix(k: nat, d: nat)
    requires 1 <= k && d < 10
    ensures Id(10 * k + d) == Id(k) + [DigitChar(d)]
  {
    var n := 10 * k + d;
    assert n / 10 == k && n % 10 == d;
    assert Decimal(n) == Decimal(k) + [DigitChar(d)];
  }

  /** With a single field, `%1` rewrites the prefix of `%10` .. `%19`. */
  lemma SubstitutedPrefixCapture(d: nat, first: string)
    requires d < 10
    ensures Substituted(Id(10 + d), [first]) == first + [DigitChar(d)]
  {
    IdPrefix(1, d);
    var rest := [DigitChar(d)];
    assert IndexOf(rest, Id(1), 0) == -1;
    ReplaceLeading(Id(1), rest, first);
    assert [first][..0] == [];
  }

  /** A later id rescans the whole text and also rewrites text an earlier id
      inserted: a first field that reads `%2` ends up as the second field. */
  lemma SubstitutedRescans(second: string)
    ensures Substituted(Id(1), [Id(2), second]) == second
  {
    var fields := [Id(2), second];
    assert fields[..1] == [Id(2)];
    assert fields[..1][..0] == [];
    assert Substituted(Id(1), [Id(2)]) == Replace(Id(1), Id(1), Id(2));
    ReplaceNoReexpansion(Id(1), Id(2));
    ReplaceNoReexpansion(Id(2), second);
  }

  /** The shape of every id: a `%` followed by characters other than `%`. */
  predicate IdShaped(id: string)
  {
    |id| >= 1 && id[0] == '%' && forall q :: 1 <= q < |id| ==> id[q] != '%'
  }

  predicate IsPrefix(a: string, b: string)
  {
    |a| <= |b| && b[..|a|] == a
  }

  lemma IdIsShaped(k: nat)
    ensures IdShaped(Id(k))
  {
    var id := Id(k);
    forall q | 1 <= q < |id|
      ensures id[q] != '%'
    {
      assert id[q] == Decimal(k)[q - 1];
      assert IsDigit(Decimal(k)[q - 1]);
    }
  }

  /** Two occurrences of id-shaped strings, neither a prefix of the other, do
      not overlap. */
  lemma Disjoint(s: string, id: string, pat: string, p: nat, i: nat)
    requires IdShaped(id) && IdShaped(pat)
    requires !IsPrefix(id, pat) && !IsPrefix(pat, id)
    requires OccursAt(s, id, p) && OccursAt(s, pat, i)
    ensures i + |pat| <= p || p + |id| <= i
  {
    forall q | p < q < p + |id|
      ensures s[q] != '%'
    {
      assert s[q] == s[p..p + |id|][q - p];
    }
    forall q | i < q < i + |pat|
      ensures s[q] != '%'
    {
      assert s[q] == s[i..i + |pat|][q - i];
    }
    assert s[p] == s[p..p + |id|][0];
    assert s[i] == s[i..i + |pat|][0];
    if |id| <= |pat| {
      assert s[i..i + |id|] == pat[..|id|];
      assert s[p..p + |id|] == id;
    } else {
      assert s[p..p + |pat|] == id[..|pat|];
      assert s[i..i + |pat|] == pat;
    }
  }

  lemma OccursContains(s: string, pat: string, k: nat)
    requires OccursAt(s, pat, k)
    ensures Contains(s, pat)
  {
  }

  /** An occurrence before the replaced part is kept. */
  lemma KeepBefore(s: string, value: string, tail: string, pat: string, p: nat, i: nat)
    requires p <= |s| && i + |pat| <= p && OccursAt(s, pat, i)
    ensures Contains(s[..p] + value + tail, pat)
  {
    var r := s[..p] + value + tail;
    assert r[i..i + |pat|] == s[i..i + |pat|];
    OccursContains(r, pat, i);
  }

  /** An occurrence in the rescanned tail is kept. */
  lemma KeepAfter(head: string, tail: string, pat: string)
    requires Contains(tail, pat)
    ensures Contains(head + tail, pat)
  {
    var q := IndexOf(tail, pat, 0);
    var r := head + tail;
    var at := |head| + q;
    assert r[at..at + |pat|] == tail[q..q + |pat|];
    OccursContains(r, pat, at);
  }

  /** An occurrence at or after `d` is one in the text after `d`. */
  lemma TailContains(s: string, pat: string, d: nat, i: nat)
    requires d <= i && OccursAt(s, pat, i)
    ensures Contains(s[d..], pat)
  {
    OccursAtShift(s, pat, d, i - d);
    OccursContains(s[d..], pat, i - d);
  }

  /** An occurrence of an id-shaped text that the replaced id is not a prefix
      of (and is not a prefix of the replaced id) survives the replacement,
      whatever the value. */
  lemma {:induction false} ReplaceKeeps(s: string, id: string, value: string, pat: string)
    requires IdShaped(id) && IdShaped(pat)
    requires !IsPrefix(id, pat) && !IsPrefix(pat, id)
    requires Contains(s, pat)
    ensures Contains(Replace(s, id, value), pat)
    decreases |s|
  {
    var i := IndexOf(s, pat, 0);
    var p := IndexOf(s, id, 0);
    if p == -1 {
      ReplaceAbsent(s, id, value);
    } else {
      var rest := s[p + |id|..];
      ReplaceStep(s, id, value, 0, p);
      assert s[0..] == s && s[0..p] == s[..p];
      Disjoint(s, id, pat, p, i);
      if i + |pat| <= p {
        KeepBefore(s, value, Replace(rest, id, value), pat, p, i);
      } else {
        TailContains(s, pat, p + |id|, i);
        ReplaceKeeps(rest, id, value, pat);
        KeepAfter(s[..p] + value, Replace(rest, id, value), pat);
      }
    }
  }

  lemma {:induction false} DecimalLengthMonotone(j: nat, k: nat)
    requires j <= k
    ensures |Decimal(j)| <= |Decimal(k)|
    decreases k
  {
    if j >= 10 {
      DecimalLengthMonotone(j / 10, k / 10);
    }
  }

  /** A later id is never a prefix of an earlier one. */
  lemma IdNotPrefixOfLater(j: nat, k: nat)
    requires j < k
    ensures !IsPrefix(Id(k), Id(j))
  {
    DecimalLengthMonotone(j, k);
    if |Id(k)| == |Id(j)| {
      assert Decimal(k) != Decimal(j) by {
        assert DigitsValue(Decimal(k)) != DigitsValue(Decimal(j));
      }
      assert Id(k)[1..] == Decimal(k) && Id(j)[1..] == Decimal(j);
      assert Id(j)[..|Id(k)|] == Id(j);
    }
  }

  /** A placeholder beyond the field count stays in the text, as long as no
      id that is substituted is a prefix of it (`%1` is a prefix of `%10`, so
      `%10` with one field is captured, see `SubstitutedPrefixCapture`). */
  lemma {:induction false} SubstitutedKeepsId(template: string, fields: seq<string>, k: nat)
    requires |fields| < k
    requires forall j :: 1 <= j <= |fields| ==> !IsPrefix(Id(j), Id(k))
    requires Contains(template, Id(k))
    ensures Contains(Substituted(template, fields), Id(k))
    decreases |fields|
  {
    if fields != [] {
      var n := |fields|;
      var init := fields[..n - 1];
      assert forall j :: 1 <= j <= |init| ==> !IsPrefix(Id(j), Id(k)) by {
        forall j | 1 <= j <= |init|
          ensures !IsPrefix(Id(j), Id(k))
        {
          assert j <= n;
        }
      }
      SubstitutedKeepsId(template, init, k);
      IdIsShaped(n);
      IdIsShaped(k);
      assert !IsPrefix(Id(n), Id(k));
      IdNotPrefixOfLater(n, k);
      ReplaceKeeps(Substituted(template, init), Id(n), fields[n - 1], Id(k));
    }
  }

  /** An example of the above with the literal text: the fields `10` and `20`
      turn the template `%1,%3` into `10,%3`. */
  lemma SmallIds()
    ensures Id(1) == "%1" && Id(2) == "%2" && Id(3) == "%3"
  {
  }

  lemma FirstIdAbsent()
    ensures !Contains(",%3", "%1")
  {
    var rest := ",%3";
    assert rest[0..2][0] != '%';
    assert rest[1..3][1] != '1';
    assert IndexOf(rest, "%1", 2) == -1;
  }

  lemma SecondIdAbsent()
    ensures !Contains("10,%3", "%2")
  {
    var once := "10,%3";
    assert once[0..2][0] != '%' && once[1..3][0] != '%' && once[2..4][0] != '%';
    assert once[3..5][1] != '2';
    assert IndexOf(once, "%2", 4) == -1;
    assert IndexOf(once, "%2", 3) == -1;
    assert IndexOf(once, "%2", 2) == -1;
    assert IndexOf(once, "%2", 1) == -1;
  }

  lemma ThirdIdPresent()
    ensures Contains("10,%3", "%3")
  {
    var once := "10,%3";
    assert once[3] == '%' && once[4] == '3';
    assert once[3..5] == "%3";
    assert OccursAt(once, "%3", 3);
  }

  lemma FirstFieldSubstituted()
    ensures Substituted("%1,%3", ["10"]) == "10,%3"
  {
    SmallIds();
    FirstIdAbsent();
    ReplaceLeading("%1", ",%3", "10");
    assert "%1,%3" == "%1" + ",%3";
    assert ["10"][..0] == [];
    assert Substituted("%1,%3", []) == "%1,%3";
  }

  /** The example itself: with the fields `10` and `20`, the template `%1,%3`
      becomes `10,%3`. */
  lemma SubstitutedMissingField()
    ensures Substituted("%1,%3", ["10", "20"]) == "10,%3"
    ensures Contains(Substituted("%1,%3", ["10", "20"]), Id(3))
  {
    SmallIds();
    var fields := ["10", "20"];
    assert fields[..1] == ["10"];
    FirstFieldSubstituted();
    SecondIdAbsent();
    ReplaceAbsent("10,%3", "%2", "20");
    assert Substituted("%1,%3", fields) == Replace("10,%3", Id(2), "20");
    ThirdIdPresent();
  }
}
