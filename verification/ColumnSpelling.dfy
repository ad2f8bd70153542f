/** How a cleaned column name is spelled: character by character from its header. */
module ColumnSpelling {
  import opened Collections
  import opened ColumnNames

  predicate IsAlnum(c: char) { '0' <= c <= '9' || 'a' <= c <= 'z' || 'A' <= c <= 'Z' }

  /** The character as it appears in a name: a digit, or the letter in lower case. */
  predicate Spelled(c: char, d: char) {
    SameLetter(c, d) && !('A' <= d <= 'Z')
  }

  /** `at` are the positions of the header's letters and digits, all of them and in order. */
  ghost predicate AlnumsAt(col: string, at: seq<nat>) {
    && (forall k :: 0 <= k < |at| ==> at[k] < |col| && IsAlnum(col[at[k]]))
    && (forall j, k :: 0 <= j < k < |at| ==> at[j] < at[k])
    && (forall i :: 0 <= i < |col| && IsAlnum(col[i]) ==> i in at)
  }

  /** The header's character at `a` is the text's character at `t`. */
  ghost predicate SpelledOne(col: string, a: nat, text: string, t: nat) {
    a < |col| && t < |text| && Spelled(col[a], text[t])
  }

  /** Two neighbours stay neighbours; letters or digits further apart have one underscore between them. */
  ghost predicate Gap(a0: nat, a1: nat, text: string, t0: nat, t1: nat) {
    if a1 == a0 + 1 then t1 == t0 + 1 else t1 == t0 + 2 && t0 + 1 < |text| && text[t0 + 1] == '_'
  }

  /** Character `k` of the header's letters and digits is at position `to[k]` of the text. */
  ghost predicate SpelledAt(col: string, at: seq<nat>, text: string, to: seq<nat>) {
    && |to| == |at|
    && (forall k :: 0 <= k < |at| ==> SpelledOne(col, at[k], text, to[k]))
    && (forall k :: 0 < k < |at| ==> Gap(at[k - 1], at[k], text, to[k - 1], to[k]))
  }

  /** The text is the header's letters and digits, with nothing before or after them. */
  ghost predicate Spells(col: string, at: seq<nat>, text: string, to: seq<nat>) {
    && AlnumsAt(col, at) && SpelledAt(col, at, text, to)
    && (if at == [] then text == "" else to[0] == 0 && to[|to| - 1] == |text| - 1)
  }

  // ----- before the underscores at the ends are trimmed -----

  /** At most one underscore before the first and after the last letter or digit. */
  ghost predicate Margins(col: string, at: seq<nat>, text: string, to: seq<nat>)
    requires |to| == |at|
  {
    if at == [] then text == (if col == "" then "" else "_")
    else
      var first, last := to[0], to[|to| - 1];
      && first == (if at[0] == 0 then 0 else 1) && (first == 1 ==> |text| > 0 && text[0] == '_')
      && |text| == last + (if at[|at| - 1] == |col| - 1 then 1 else 2)
      && (|text| == last + 2 ==> text[last + 1] == '_')
  }

  ghost predicate Squeezed(col: string, at: seq<nat>, text: string, to: seq<nat>) {
    AlnumsAt(col, at) && SpelledAt(col, at, text, to) && Margins(col, at, text, to)
  }

  lemma {:induction false} SpelledLower(c: char)
    requires IsAlnum(c)
    ensures Spelled(c, LowerChar(c)) && LowerChar(c) != '_'
  {
  }

  lemma {:induction false} AlnumsNext(col: string, at: seq<nat>, c: char)
    requires AlnumsAt(col, at)
    ensures AlnumsAt(col + [c], if IsAlnum(c) then at + [|col|] else at)
  {
    var all, more := col + [c], if IsAlnum(c) then at + [|col|] else at;
    assert forall i :: 0 <= i < |col| ==> all[i] == col[i];
    forall i | 0 <= i < |all| && IsAlnum(all[i])
      ensures i in more
    {
      if i < |col| {
        assert i in at;
      } else {
        assert more[|at|] == i;
      }
    }
  }

  lemma {:induction false} SpelledGrows(col: string, at: seq<nat>, text: string, to: seq<nat>, c: char, tail: string)
    requires SpelledAt(col, at, text, to)
    ensures SpelledAt(col + [c], at, text + tail, to)
  {
    forall k | 0 <= k < |at|
      ensures SpelledOne(col + [c], at[k], text + tail, to[k])
    {
      assert SpelledOne(col, at[k], text, to[k]);
    }
    forall k | 0 < k < |at|
      ensures Gap(at[k - 1], at[k], text + tail, to[k - 1], to[k])
    {
      assert Gap(at[k - 1], at[k], text, to[k - 1], to[k]);
    }
  }

  lemma {:induction false} SpelledSnoc(col: string, at: seq<nat>, text: string, to: seq<nat>, a: nat, t: nat)
    requires SpelledAt(col, at, text, to) && SpelledOne(col, a, text, t)
    requires at != [] ==> Gap(at[|at| - 1], a, text, to[|to| - 1], t)
    ensures SpelledAt(col, at + [a], text, to + [t])
  {
  }

  /** One more letter or digit. */
  lemma {:induction false} AppendAlnum(col: string, at: seq<nat>, text: string, to: seq<nat>, c: char)
    requires Squeezed(col, at, text, to) && IsAlnum(c)
    ensures Squeezed(col + [c], at + [|col|], text + [LowerChar(c)], to + [|text|])
  {
    AlnumsNext(col, at, c);
    SpelledLower(c);
    SpelledGrows(col, at, text, to, c, [LowerChar(c)]);
    SpelledSnoc(col + [c], at, text + [LowerChar(c)], to, |col|, |text|);
  }

  predicate EndsInUnderscore(text: string) { text != "" && text[|text| - 1] == '_' }

  /** The text ends in an underscore exactly when other characters follow the last letter or digit. */
  lemma {:induction false} TextEnds(col: string, at: seq<nat>, text: string, to: seq<nat>)
    requires SpelledAt(col, at, text, to) && Margins(col, at, text, to) && at != []
    requires forall k :: 0 <= k < |at| ==> at[k] < |col| && IsAlnum(col[at[k]])
    ensures |text| == to[|to| - 1] + if EndsInUnderscore(text) then 2 else 1
  {
    var last := |at| - 1;
    assert SpelledOne(col, at[last], text, to[last]);
    SpelledNotUnderscore(col[at[last]], text[to[last]]);
  }

  lemma {:induction false} MarginsOther(col: string, at: seq<nat>, text: string, to: seq<nat>, c: char)
    requires Squeezed(col, at, text, to)
    ensures Margins(col + [c], at, if EndsInUnderscore(text) then text else text + "_", to)
  {
    if at != [] {
      TextEnds(col, at, text, to);
    }
  }

  /** One more other character, after which the text ends in an underscore. */
  lemma {:induction false} AppendOther(col: string, at: seq<nat>, text: string, to: seq<nat>, c: char)
    requires Squeezed(col, at, text, to) && !IsAlnum(c)
    ensures Squeezed(col + [c], at, if EndsInUnderscore(text) then text else text + "_", to)
  {
    AlnumsNext(col, at, c);
    MarginsOther(col, at, text, to, c);
    if EndsInUnderscore(text) {
      SpelledGrows(col, at, text, to, c, "");
      assert text + "" == text;
    } else {
      SpelledGrows(col, at, text, to, c, "_");
    }
  }

  lemma {:induction false} SqueezeNext(col: string, c: char)
    ensures Squeeze(col + [c]) ==
      if IsAlnum(c) then Squeeze(col) + [LowerChar(c)]
      else if EndsInUnderscore(Squeeze(col)) then Squeeze(col)
      else Squeeze(col) + "_"
  {
    assert (col + [c])[..|col|] == col;
  }

  lemma {:induction false} SqueezeStep(col: string, at: seq<nat>, to: seq<nat>, c: char)
    returns (at': seq<nat>, to': seq<nat>)
    requires Squeezed(col, at, Squeeze(col), to)
    ensures Squeezed(col + [c], at', Squeeze(col + [c]), to')
  {
    SqueezeNext(col, c);
    if IsAlnum(c) {
      AppendAlnum(col, at, Squeeze(col), to, c);
      at', to' := at + [|col|], to + [|Squeeze(col)|];
    } else {
      AppendOther(col, at, Squeeze(col), to, c);
      at', to' := at, to;
    }
  }

  lemma {:induction false} SqueezeSpells(col: string) returns (at: seq<nat>, to: seq<nat>)
    ensures Squeezed(col, at, Squeeze(col), to)
  {
    if col == [] {
      at, to := [], [];
    } else {
      var n := |col| - 1;
      var c := col[n];
      at, to := SqueezeSpells(col[..n]);
      assert col == col[..n] + [c];
      at, to := SqueezeStep(col[..n], at, to, c);
    }
  }

  lemma {:induction false} SpelledNotUnderscore(c: char, d: char)
    requires IsAlnum(c) && Spelled(c, d)
    ensures d != '_' && (IsDigit(d) <==> IsDigit(c))
  {
  }

  // ----- the trimmed name -----

  lemma {:induction false} Increasing(col: string, at: seq<nat>, text: string, to: seq<nat>, j: nat, k: nat)
    requires SpelledAt(col, at, text, to) && j <= k < |to|
    ensures to[j] <= to[k]
    decreases k
  {
    if j < k {
      assert Gap(at[k - 1], at[k], text, to[k - 1], to[k]);
      Increasing(col, at, text, to, j, k - 1);
    }
  }

  /** The positions counted from the first letter or digit. */
  lemma {:induction false} Shifted(col: string, at: seq<nat>, text: string, to: seq<nat>, there: seq<nat>)
    requires at != [] && SpelledAt(col, at, text, to) && |there| == |to|
    requires forall k :: 0 <= k < |to| ==> there[k] + to[0] == to[k]
    ensures to[0] <= to[|to| - 1] < |text|
    ensures SpelledAt(col, at, text[to[0]..to[|to| - 1] + 1], there)
  {
    var first, last := to[0], to[|to| - 1];
    Increasing(col, at, text, to, 0, |to| - 1);
    assert SpelledOne(col, at[|at| - 1], text, last);
    var middle := text[first..last + 1];
    forall k | 0 <= k < |at|
      ensures SpelledOne(col, at[k], middle, there[k])
    {
      Increasing(col, at, text, to, 0, k);
      Increasing(col, at, text, to, k, |to| - 1);
      assert SpelledOne(col, at[k], text, to[k]);
    }
    forall k | 0 < k < |at|
      ensures Gap(at[k - 1], at[k], middle, there[k - 1], there[k])
    {
      Increasing(col, at, text, to, 0, k - 1);
      Increasing(col, at, text, to, k, |to| - 1);
      assert Gap(at[k - 1], at[k], text, to[k - 1], to[k]);
    }
  }

  lemma {:induction false} ShiftBack(col: string, at: seq<nat>, text: string, to: seq<nat>) returns (there: seq<nat>)
    requires at != [] && SpelledAt(col, at, text, to)
    ensures |there| == |to| && forall k :: 0 <= k < |to| ==> there[k] + to[0] == to[k]
  {
    var first := to[0];
    forall k | 0 <= k < |to|
      ensures first <= to[k]
    {
      Increasing(col, at, text, to, 0, k);
    }
    there := seq(|to|, k requires 0 <= k < |to| => to[k] - first);
  }

  /** Outside the first and the last letter or digit there are only underscores. */
  lemma {:induction false} TrimmedText(col: string, at: seq<nat>, text: string, to: seq<nat>)
    requires Squeezed(col, at, text, to) && at != []
    ensures to[0] <= to[|to| - 1] < |text| && TrimUnderscores(text) == text[to[0]..to[|to| - 1] + 1]
  {
    var n := |at| - 1;
    assert SpelledOne(col, at[0], text, to[0]) && SpelledOne(col, at[n], text, to[n]);
    SpelledNotUnderscore(col[at[0]], text[to[0]]);
    SpelledNotUnderscore(col[at[n]], text[to[n]]);
    Increasing(col, at, text, to, 0, n);
    TrimMiddle(IsUnderscore, text, to[0], to[n] + 1);
  }

  /** Trimming leaves what lies between the first and the last letter or digit. */
  lemma {:induction false} TrimSpells(col: string, at: seq<nat>, text: string, to: seq<nat>) returns (there: seq<nat>)
    requires Squeezed(col, at, text, to)
    ensures Spells(col, at, TrimUnderscores(text), there)
  {
    if at == [] {
      TrimMiddle(IsUnderscore, text, 0, 0);
      there := [];
    } else {
      there := ShiftBack(col, at, text, to);
      Shifted(col, at, text, to, there);
      TrimmedText(col, at, text, to);
    }
  }

  // ----- the three forms of a name -----

  /** The header has no letter or digit, or one run of digits and nothing else of either. */
  ghost predicate NoName(col: string, at: seq<nat>)
    requires AlnumsAt(col, at)
  {
    forall k :: 0 <= k < |at| ==> IsDigit(col[at[k]]) && (k > 0 ==> at[k] == at[k - 1] + 1)
  }

  lemma {:induction false} AllDigitsIff(col: string, at: seq<nat>, text: string, to: seq<nat>)
    requires Spells(col, at, text, to)
    ensures text == "" || AllDigits(text) <==> NoName(col, at)
  {
    if AllDigits(text) {
      forall k | 0 <= k < |at|
        ensures IsDigit(col[at[k]]) && (k > 0 ==> at[k] == at[k - 1] + 1)
      {
        assert SpelledOne(col, at[k], text, to[k]);
        SpelledNotUnderscore(col[at[k]], text[to[k]]);
        assert IsDigit(text[to[k]]);
        assert k > 0 ==> Gap(at[k - 1], at[k], text, to[k - 1], to[k]);
      }
    }
    if NoName(col, at) && at != [] {
      forall i | 0 <= i < |text|
        ensures IsDigit(text[i])
      {
        Consecutive(col, at, text, to, i);
        assert SpelledOne(col, at[i], text, to[i]);
        SpelledNotUnderscore(col[at[i]], text[to[i]]);
      }
    }
  }

  lemma {:induction false} Consecutive(col: string, at: seq<nat>, text: string, to: seq<nat>, i: nat)
    requires Spells(col, at, text, to) && NoName(col, at) && i < |text|
    ensures i < |to| && to[i] == i
  {
    if i > 0 {
      Consecutive(col, at, text, to, i - 1);
      assert i < |to| ==> Gap(at[i - 1], at[i], text, to[i - 1], to[i]);
    }
  }

  /** The base name of a column: `column_<idx>` when its header has no letters and at most one run of
      digits; else the header's letters and digits, with "col_" before a leading digit. */
  lemma {:induction false} BaseNameSpells(col: string, idx: nat)
    returns (at: seq<nat>, text: string, to: seq<nat>)
    ensures Spells(col, at, text, to)
    ensures BaseName(col, idx) ==
      if NoName(col, at) then "column_" + Decimal(idx)
      else if IsDigit(col[at[0]]) then "col_" + text
      else text
  {
    at, to := SqueezeSpells(col);
    text := TrimUnderscores(Squeeze(col));
    to := TrimSpells(col, at, Squeeze(col), to);
    AllDigitsIff(col, at, text, to);
    if !NoName(col, at) {
      assert SpelledOne(col, at[0], text, to[0]);
      SpelledNotUnderscore(col[at[0]], text[0]);
    } else {
      assert ("column_" + Decimal(idx))[0] == 'c';
    }
  }
}
