/** Column name cleaning: valid identifiers, and numeric suffixes for repeated names. */
module ColumnNames {
  import opened Collections

  // ----- decimal numbers -----

  function DigitChar(d: nat): char
    requires d < 10
  {
    '0' + d as char
  }

  function Decimal(n: nat): (s: string)
    ensures s != []
  {
    if n < 10 then [DigitChar(n)] else Decimal(n / 10) + [DigitChar(n % 10)]
  }

  /** The number a decimal text stands for. */
  function Value(s: string): int {
    if s == [] then 0 else 10 * Value(s[..|s| - 1]) + (s[|s| - 1] as int - '0' as int)
  }

  predicate IsDigit(c: char) { '0' <= c <= '9' }

  predicate AllDigits(s: string) {
    forall i :: 0 <= i < |s| ==> IsDigit(s[i])
  }

  lemma {:induction false} DecimalRoundTrip(n: nat)
    ensures Value(Decimal(n)) == n && AllDigits(Decimal(n))
  {
    if n >= 10 {
      DecimalRoundTrip(n / 10);
      var s := Decimal(n);
      assert s[..|s| - 1] == Decimal(n / 10);
    } else {
      assert Value(Decimal(n)[..0]) == 0;
    }
  }

  // ----- the base name of one column -----

  predicate IsWord(c: char) { IsDigit(c) || 'a' <= c <= 'z' || 'A' <= c <= 'Z' || c == '_' }

  /** Runs of special characters and underscores become one underscore; the rest in lower case. */
  function Squeeze(s: string): string {
    if s == [] then []
    else
      var rest := Squeeze(s[..|s| - 1]);
      var c := s[|s| - 1];
      if IsWord(c) && c != '_' then rest + [LowerChar(c)]
      else if rest != [] && rest[|rest| - 1] == '_' then rest
      else rest + "_"
  }

  predicate IsUnderscore(c: char) { c == '_' }

  function TrimUnderscores(s: string): string { Trim(IsUnderscore, s) }

  predicate NameChar(c: char) { IsDigit(c) || 'a' <= c <= 'z' || c == '_' }

  predicate NameChars(s: string) {
    forall i :: 0 <= i < |s| ==> NameChar(s[i])
  }

  /** A lower-case identifier PostgreSQL accepts unquoted: it starts with a letter. */
  predicate ValidName(s: string) {
    s != [] && 'a' <= s[0] <= 'z' && NameChars(s)
  }

  /** The cleaned name before duplicates are told apart. */
  function BaseName(col: string, idx: nat): string {
    var clean := TrimUnderscores(Squeeze(col));
    var named := if clean == [] || AllDigits(clean) then "column_" + Decimal(idx) else clean;
    if IsDigit(named[0]) then "col_" + named else named
  }

  lemma {:induction false} SqueezeChars(s: string)
    ensures NameChars(Squeeze(s))
  {
    if s != [] {
      SqueezeChars(s[..|s| - 1]);
    }
  }

  lemma {:induction false} TrimChars(s: string)
    requires NameChars(s)
    ensures NameChars(TrimUnderscores(s)) && (TrimUnderscores(s) != [] ==> TrimUnderscores(s)[0] != '_')
  {
    var i, j := TrimIs(IsUnderscore, s);
  }

  lemma JoinChars(a: string, b: string)
    requires NameChars(a) && NameChars(b)
    ensures NameChars(a + b)
  {
  }

  lemma DigitsAreNameChars(s: string)
    requires AllDigits(s)
    ensures NameChars(s)
  {
  }

  lemma {:induction false} BaseNameValid(col: string, idx: nat)
    ensures ValidName(BaseName(col, idx))
  {
    SqueezeChars(col);
    TrimChars(Squeeze(col));
    DecimalRoundTrip(idx);
    DigitsAreNameChars(Decimal(idx));
    JoinChars("column_", Decimal(idx));
    var clean := TrimUnderscores(Squeeze(col));
    JoinChars("col_", clean);
    assert ("column_" + Decimal(idx))[0] == 'c' && ("col_" + clean)[0] == 'c';
    assert clean != [] ==> NameChar(clean[0]);
  }

  // ----- telling duplicates apart -----

  /** How many of the first `i` names equal name `b`. */
  function Count(bases: seq<string>, i: nat, b: string): nat
    requires i <= |bases|
  {
    if i == 0 then 0 else Count(bases, i - 1, b) + if bases[i - 1] == b then 1 else 0
  }

  function Suffixed(b: string, k: nat): string { b + "_" + Decimal(k) }

  /** The emitted name: the base the first time, then the base with 1, 2, ... */
  function Emitted(bases: seq<string>, i: nat): string
    requires i < |bases|
  {
    var k := Count(bases, i, bases[i]);
    if k == 0 then bases[i] else Suffixed(bases[i], k)
  }

  function Bases(columns: seq<string>): seq<string> {
    seq(|columns|, i requires 0 <= i < |columns| => BaseName(columns[i], i))
  }

  /** The map counts the repetitions of every name seen so far. */
  ghost predicate Counts(seen: map<string, nat>, bases: seq<string>, i: nat)
    requires i <= |bases|
  {
    forall b :: Count(bases, i, b) == if b in seen then seen[b] + 1 else 0
  }

  lemma {:induction false} CountsNext(seen: map<string, nat>, bases: seq<string>, i: nat)
    requires i < |bases| && Counts(seen, bases, i)
    ensures Counts(seen[bases[i] := if bases[i] in seen then seen[bases[i]] + 1 else 0], bases, i + 1)
  {
    forall b
      ensures Count(bases, i + 1, b) == Count(bases, i, b) + if bases[i] == b then 1 else 0
    {
    }
  }

  /** Tell a repeated name apart and count it. */
  method Disambiguate(seen: map<string, nat>, base: string) returns (name: string, next: map<string, nat>)
    ensures name == if base in seen then Suffixed(base, seen[base] + 1) else base
    ensures next == seen[base := if base in seen then seen[base] + 1 else 0]
  {
    if base in seen {
      var count := seen[base];
      next := seen[base := count + 1];
      name := Suffixed(base, count + 1);
    } else {
      next := seen[base := 0];
      name := base;
    }
  }

  function Names(bases: seq<string>, n: nat): (names: seq<string>)
    requires n <= |bases|
    ensures |names| == n
  {
    if n == 0 then [] else Names(bases, n - 1) + [Emitted(bases, n - 1)]
  }

  lemma {:induction false} NamesAt(bases: seq<string>, n: nat, i: nat)
    requires i < n <= |bases|
    ensures Names(bases, n)[i] == Emitted(bases, i)
  {
    if i < n - 1 {
      NamesAt(bases, n - 1, i);
    }
  }

  method CleanColumnNames(columns: seq<string>) returns (cleaned: seq<string>)
    ensures |cleaned| == |columns|
    ensures forall i :: 0 <= i < |columns| ==> cleaned[i] == Emitted(Bases(columns), i)
    ensures forall i :: 0 <= i < |columns| ==> ValidName(cleaned[i])
  {
    cleaned := [];
    var seen: map<string, nat> := map[];
    ghost var bases := Bases(columns);
    for idx := 0 to |columns|
      invariant cleaned == Names(bases, idx) && Counts(seen, bases, idx)
    {
      var colClean := BaseName(columns[idx], idx);
      assert colClean == bases[idx];
      CountsNext(seen, bases, idx);
      colClean, seen := Disambiguate(seen, colClean);
      cleaned := cleaned + [colClean];
    }
    forall i | 0 <= i < |columns|
      ensures cleaned[i] == Emitted(bases, i)
    {
      NamesAt(bases, |columns|, i);
    }
    EmittedValid(columns);
  }

  lemma {:induction false} EmittedValid(columns: seq<string>)
    ensures forall i :: 0 <= i < |columns| ==> ValidName(Emitted(Bases(columns), i))
  {
    forall i | 0 <= i < |columns|
      ensures ValidName(Emitted(Bases(columns), i))
    {
      var base := BaseName(columns[i], i);
      var k := Count(Bases(columns), i, base);
      BaseNameValid(columns[i], i);
      DecimalRoundTrip(k);
      DigitsAreNameChars(Decimal(k));
      JoinChars(base, "_");
      JoinChars(base + "_", Decimal(k));
    }
  }

  // ----- when the names are distinct -----

  lemma LastUnderscore(a: string, digits: string)
    requires AllDigits(digits)
    ensures var s := a + "_" + digits; forall m :: |a| < m < |s| ==> s[m] != '_'
  {
  }

  /** The part after the last underscore is the number, so base and number can be read back. */
  lemma {:induction false} SuffixRecoverable(a: string, j: nat, b: string, k: nat)
    requires Suffixed(a, j) == Suffixed(b, k)
    ensures a == b && j == k
  {
    DecimalRoundTrip(j);
    DecimalRoundTrip(k);
    var s, x, y := Suffixed(a, j), Decimal(j), Decimal(k);
    LastUnderscore(a, x);
    LastUnderscore(b, y);
    assert s[|a|] == '_' && s[|b|] == '_';
    assert |a| == |b|;
    assert a == s[..|a|] && b == s[..|b|];
    assert x == s[|a| + 1..] && y == s[|b| + 1..];
  }

  lemma {:induction false} CountMonotone(bases: seq<string>, i: nat, j: nat, b: string)
    requires i <= j <= |bases|
    ensures Count(bases, i, b) <= Count(bases, j, b)
  {
    if i < j {
      CountMonotone(bases, i, j - 1, b);
    }
  }

  /** A counted name has a first occurrence, which is emitted as it is. */
  lemma {:induction false} FirstOccurrence(bases: seq<string>, n: nat) returns (f: nat)
    requires n < |bases|
    ensures f <= n && bases[f] == bases[n] && Count(bases, f, bases[n]) == 0
  {
    f := n;
    if Count(bases, n, bases[n]) > 0 {
      var m := Earlier(bases, n, bases[n]);
      f := FirstOccurrence(bases, m);
    }
  }

  lemma {:induction false} Earlier(bases: seq<string>, n: nat, b: string) returns (m: nat)
    requires n <= |bases| && Count(bases, n, b) > 0
    ensures m < n && bases[m] == b
  {
    if bases[n - 1] == b {
      m := n - 1;
    } else {
      m := Earlier(bases, n - 1, b);
    }
  }

  ghost predicate DuplicateFree(bases: seq<string>) {
    forall i, j :: 0 <= i < j < |bases| ==> Emitted(bases, i) != Emitted(bases, j)
  }

  /** Some column's base name is the suffixed name emitted for another column. */
  ghost predicate Clash(bases: seq<string>) {
    exists i, j :: 0 <= i < |bases| && 0 <= j < |bases| &&
      Count(bases, j, bases[j]) > 0 && bases[i] == Emitted(bases, j)
  }

  /** Two columns with the same name: one of them carries its bare base name. */
  lemma {:induction false} EqualNamesClash(bases: seq<string>, i: nat, j: nat)
    requires i < j < |bases| && Emitted(bases, i) == Emitted(bases, j)
    ensures Clash(bases)
  {
    var a, b := Count(bases, i, bases[i]), Count(bases, j, bases[j]);
    if bases[i] == bases[j] {
      CountMonotone(bases, i + 1, j, bases[i]);
      assert a < b;
    }
    if a > 0 && b > 0 {
      SuffixRecoverable(bases[i], a, bases[j], b);
    }
    assert a == 0 || b == 0;
    assert a == 0 ==> bases[i] == Emitted(bases, j);
    assert b == 0 ==> bases[j] == Emitted(bases, i);
  }

  /** The names are distinct exactly when no base name equals a suffixed name of another column. */
  lemma {:induction false} NamesDistinctIff(bases: seq<string>)
    ensures DuplicateFree(bases) <==> !Clash(bases)
  {
    if !DuplicateFree(bases) {
      var i, j :| 0 <= i < j < |bases| && Emitted(bases, i) == Emitted(bases, j);
      EqualNamesClash(bases, i, j);
    }
    if Clash(bases) {
      var i, j :| 0 <= i < |bases| && 0 <= j < |bases| && Count(bases, j, bases[j]) > 0 &&
        bases[i] == Emitted(bases, j);
      var f := FirstOccurrence(bases, i);
      assert Emitted(bases, f) == Emitted(bases, j);
      assert f != j;
    }
  }

  lemma {:induction false} BaseIsItself(col: string, idx: nat)
    requires col == "a" || col == "a_1"
    ensures BaseName(col, idx) == col
  {
    assert Squeeze("a") == "a" by {
      assert "a"[..0] == "";
    }
    assert Squeeze("a_") == "a_" by {
      assert "a_"[..1] == "a";
    }
    assert Squeeze("a_1") == "a_1" by {
      assert "a_1"[..2] == "a_";
    }
    assert !IsDigit(col[0]);
  }

  /** The header a, a, a_1: the third column's own name is the suffix given to the second. */
  lemma {:induction false} ClashExample()
    ensures !DuplicateFree(Bases(["a", "a", "a_1"]))
  {
    var bases := Bases(["a", "a", "a_1"]);
    BaseIsItself("a", 0);
    BaseIsItself("a", 1);
    BaseIsItself("a_1", 2);
    assert Count(bases, 1, "a") == 1 && Decimal(1) == "1";
    assert Emitted(bases, 1) == "a_1";
    assert Count(bases, 2, "a_1") == 0;
    assert Emitted(bases, 2) == "a_1";
  }
}
