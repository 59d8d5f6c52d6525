/** Rollup keys: the dimensions of a record joined into one string, and that string split again. */
module RollupKeys {
  import opened Options

  // ---------------------------------------------------------------- strings.Join and strings.Split

  function Join(parts: seq<string>, token: string): string {
    if parts == [] then ""
    else if |parts| == 1 then parts[0]
    else parts[0] + token + Join(parts[1..], token)
  }

  predicate OccursAt(s: string, token: string, i: nat) {
    i + |token| <= |s| && s[i..i + |token|] == token
  }

  /** The first place at or after `from` where the token occurs. */
  function IndexFrom(s: string, token: string, from: nat): (r: Option<nat>)
    requires from <= |s|
    ensures r.Some? ==> from <= r.value && OccursAt(s, token, r.value)
    ensures r.Some? ==> forall i: nat :: from <= i < r.value ==> !OccursAt(s, token, i)
    ensures r.None? ==> forall i: nat :: from <= i ==> !OccursAt(s, token, i)
    decreases |s| - from
  {
    if OccursAt(s, token, from) then Some(from)
    else if from == |s| then None
    else IndexFrom(s, token, from + 1)
  }

  function Split(s: string, token: string): (parts: seq<string>)
    requires token != ""
    ensures parts != []
    decreases |s|
  {
    match IndexFrom(s, token, 0)
    case None => [s]
    case Some(i) => [s[..i]] + Split(s[i + |token|..], token)
  }

  /** A part the splitter takes back whole: followed by the token, it holds none any earlier. */
  ghost predicate ClosedBy(part: string, token: string) {
    forall i: nat :: i < |part| ==> !OccursAt(part + token, token, i)
  }

  ghost predicate Contains(s: string, token: string) {
    exists i: nat :: OccursAt(s, token, i)
  }

  /** The parts that survive joining: each but the last is closed by the token, the last does not hold it. */
  ghost predicate Splittable(parts: seq<string>, token: string) {
    && parts != []
    && (forall i :: 0 <= i < |parts| - 1 ==> ClosedBy(parts[i], token))
    && !Contains(parts[|parts| - 1], token)
  }

  /** The first token after a part is right behind it exactly when the part is closed by the token. */
  lemma FirstTokenIff(part: string, token: string, rest: string)
    requires token != ""
    ensures IndexFrom(part + token + rest, token, 0) == Some(|part|) <==> ClosedBy(part, token)
  {
    var s := part + token + rest;
    assert OccursAt(s, token, |part|);
    forall i: nat | i < |part| ensures OccursAt(s, token, i) <==> OccursAt(part + token, token, i) {
      assert s[i..i + |token|] == (part + token)[i..i + |token|];
    }
  }

  /** Splitting a joined key on its token gives the parts back exactly when the parts are splittable. */
  lemma {:induction false} SplitJoinIff(parts: seq<string>, token: string)
    requires token != "" && parts != []
    ensures Split(Join(parts, token), token) == parts <==> Splittable(parts, token)
    decreases |parts|
  {
    hide IndexFrom, OccursAt, ClosedBy;
    var s := Join(parts, token);
    if |parts| == 1 {
      assert s == parts[0];
      SplitOne(s, token);
    } else {
      var head, tail := parts[0], parts[1..];
      SplitJoinIff(tail, token);
      FirstTokenIff(head, token, Join(tail, token));
      SplitsHeadIff(head, token, tail);
      assert parts == [head] + tail;
      assert Splittable(parts, token) <==> ClosedBy(head, token) && Splittable(tail, token) by {
        assert forall i :: 0 <= i < |tail| ==> tail[i] == parts[i + 1];
      }
    }
  }

  lemma SplitOne(s: string, token: string)
    requires token != ""
    ensures Split(s, token) == [s] <==> !Contains(s, token)
  {
    if IndexFrom(s, token, 0).Some? {
      assert OccursAt(s, token, IndexFrom(s, token, 0).value);
    }
  }

  lemma SplitsHeadIff(head: string, token: string, tail: seq<string>)
    requires token != "" && tail != []
    ensures var s := head + token + Join(tail, token);
            Split(s, token) == [head] + tail
            <==> IndexFrom(s, token, 0) == Some(|head|) && Split(Join(tail, token), token) == tail
  {
    hide IndexFrom, Join;
    var s := head + token + Join(tail, token);
    match IndexFrom(s, token, 0)
    case None =>
      assert |[s]| != |[head] + tail|;
    case Some(i) =>
      var rest := s[i + |token|..];
      assert Split(s, token)[0] == s[..i] && Split(s, token)[1..] == Split(rest, token);
      assert ([head] + tail)[0] == head && ([head] + tail)[1..] == tail;
      if i == |head| {
        assert s[..i] == head && rest == Join(tail, token);
      } else {
        assert |s[..i]| == i;
      }
  }

  /** For a one-character token that means: no part holds it. */
  lemma OneCharacterToken(parts: seq<string>, c: char)
    requires parts != []
    ensures Splittable(parts, [c]) <==> forall i :: 0 <= i < |parts| ==> c !in parts[i]
  {
    forall s: string ensures (ClosedBy(s, [c]) <==> c !in s) && (!Contains(s, [c]) <==> c !in s) {
      HoldsCharacter(s, c);
    }
  }

  lemma HoldsCharacter(s: string, c: char)
    ensures ClosedBy(s, [c]) <==> c !in s
    ensures Contains(s, [c]) <==> c in s
  {
    forall i: nat | i < |s| ensures (OccursAt(s, [c], i) <==> s[i] == c) && (OccursAt(s + [c], [c], i) <==> s[i] == c) {
      assert s[i..i + 1] == [s[i]] && (s + [c])[i..i + 1] == [s[i]];
    }
    if c in s {
      var i: nat :| i < |s| && s[i] == c;
      assert OccursAt(s, [c], i) && OccursAt(s + [c], [c], i);
    }
  }

  // ---------------------------------------------------------------- how many parts come back

  lemma FirstCharacter(s: string, c: char, i: nat)
    requires i < |s| && s[i] == c && c !in s[..i]
    ensures IndexFrom(s, [c], 0) == Some(i)
  {
    hide IndexFrom;
    assert s[i..i + 1] == [c];
    forall j: nat | j < i ensures !OccursAt(s, [c], j) {
      assert s[j..j + 1] == [s[j]] && s[..i][j] == s[j];
    }
    assert OccursAt(s, [c], i);
  }

  lemma SplitHead(s: string, c: char, i: nat)
    requires i < |s| && s[i] == c && c !in s[..i]
    ensures Split(s, [c]) == [s[..i]] + Split(s[i + 1..], [c])
  {
    hide IndexFrom, OccursAt;
    FirstCharacter(s, c, i);
  }

  /** Splitting at one joining character: the parts of what is before it, then the parts of what is after it. */
  lemma {:induction false} SplitConcat(a: string, c: char, b: string)
    ensures Split(a + [c] + b, [c]) == Split(a, [c]) + Split(b, [c])
    decreases |a|
  {
    hide Split, IndexFrom;
    var s := a + [c] + b;
    if i: nat :| i < |a| && a[i] == c && c !in a[..i] {
      SplitHead(a, c, i);
      assert s[..i] == a[..i];
      SplitHead(s, c, i);
      assert s[i + 1..] == a[i + 1..] + [c] + b;
      SplitConcat(a[i + 1..], c, b);
    } else {
      NoFirst(a, c);
      assert s[..|a|] == a && s[|a| + 1..] == b;
      SplitHead(s, c, |a|);
      HoldsCharacter(a, c);
      SplitOne(a, [c]);
    }
  }

  lemma {:induction false} NoFirst(a: string, c: char)
    requires forall i: nat :: i < |a| && a[i] == c ==> c in a[..i]
    ensures c !in a
  {
    for n := 0 to |a|
      invariant c !in a[..n]
    {
      assert a[..n + 1] == a[..n] + [a[n]];
    }
    assert a[..|a|] == a;
  }

  /** A joined key never splits into fewer parts, and into as many exactly when no part holds the character. */
  lemma {:induction false} SplitCount(parts: seq<string>, c: char)
    requires parts != []
    ensures |Split(Join(parts, [c]), [c])| >= |parts|
    ensures |Split(Join(parts, [c]), [c])| == |parts| <==> forall i :: 0 <= i < |parts| ==> c !in parts[i]
    decreases |parts|
  {
    hide IndexFrom, Split;
    SplitLengthOne(parts[0], c);
    if |parts| > 1 {
      SplitCount(parts[1..], c);
      SplitConcat(parts[0], c, Join(parts[1..], [c]));
      assert forall i :: 0 <= i < |parts| - 1 ==> parts[1..][i] == parts[i + 1];
    }
  }

  lemma SplitLengthOne(s: string, c: char)
    ensures |Split(s, [c])| >= 1
    ensures |Split(s, [c])| == 1 <==> c !in s
  {
    hide IndexFrom;
    SplitOne(s, [c]);
    HoldsCharacter(s, c);
    if c in s {
      assert IndexFrom(s, [c], 0).Some?;
    }
  }

  /** Places where the token occurs, each behind the end of those before. */
  predicate Apart(s: string, token: string, at: seq<nat>) {
    && (forall i :: 0 <= i < |at| ==> OccursAt(s, token, at[i]))
    && (forall i, j :: 0 <= i < j < |at| ==> at[i] + |token| <= at[j])
  }

  function Moved(at: seq<nat>, n: nat): seq<nat> {
    seq(|at|, i requires 0 <= i < |at| => at[i] + n)
  }

  lemma OccursBehind(s: string, token: string, n: nat, i: nat)
    requires n <= |s|
    ensures OccursAt(s[n..], token, i) <==> OccursAt(s, token, i + n)
  {
    if i + n + |token| <= |s| {
      assert s[n..][i..i + |token|] == s[i + n..i + n + |token|];
    }
  }

  lemma ApartAfter(s: string, token: string, i: nat, n: nat, more: seq<nat>)
    requires n == i + |token| <= |s| && OccursAt(s, token, i) && Apart(s[n..], token, more)
    ensures Apart(s, token, [i] + Moved(more, n))
  {
    hide OccursAt;
    var at := [i] + Moved(more, n);
    forall j | 0 <= j < |at| ensures OccursAt(s, token, at[j]) {
      if j > 0 {
        OccursBehind(s, token, n, more[j - 1]);
      }
    }
  }

  /** Splitting cuts at tokens that do not overlap. */
  lemma {:induction false} CutsApart(s: string, token: string) returns (at: seq<nat>)
    requires token != ""
    ensures |at| == |Split(s, token)| - 1 && Apart(s, token, at)
    decreases |s|
  {
    hide OccursAt;
    match IndexFrom(s, token, 0)
    case None => at := [];
    case Some(i) =>
      var n := EndOf(s, token, i);
      var more := CutsApart(s[n..], token);
      at := [i] + Moved(more, n);
      ApartAfter(s, token, i, n, more);
  }

  function EndOf(s: string, token: string, i: nat): (n: nat)
    requires OccursAt(s, token, i)
    ensures n == i + |token| <= |s|
  {
    i + |token|
  }

  /** And at as many as there can be. */
  lemma {:induction false} NoMoreApart(s: string, token: string, at: seq<nat>)
    requires token != "" && Apart(s, token, at)
    ensures |at| < |Split(s, token)|
    decreases |s|
  {
    hide OccursAt;
    if at != [] {
      assert OccursAt(s, token, at[0]);
      var n := EndOf(s, token, IndexFrom(s, token, 0).value);
      var more := seq(|at| - 1, (i: nat) requires i < |at| - 1 => if at[i + 1] >= n then at[i + 1] - n else 0);
      forall i | 0 <= i < |more| ensures more[i] + n == at[i + 1] && OccursAt(s[n..], token, more[i]) {
        assert at[0] + |token| <= at[i + 1];
        OccursBehind(s, token, n, more[i]);
      }
      NoMoreApart(s[n..], token, more);
    }
  }

  // ---------------------------------------------------------------- getKey

  datatype Val = Str(s: string) | Int(n: int) | StrMap(strs: map<string, string>) | IntMap(ints: map<string, int>) | Other

  type Record = map<string, Val>

  function Digits(n: nat): string {
    if n < 10 then ["0123456789"[n]] else Digits(n / 10) + ["0123456789"[n % 10]]
  }

  function Itoa(n: int): string {
    if n < 0 then "-" + Digits(-n) else Digits(n)
  }

  function StrAt(m: map<string, string>, k: string): string { if k in m then m[k] else "" }

  function IntAt(m: map<string, int>, k: string): int { if k in m then m[k] else 0 }

  predicate HasPrefix(s: string, prefix: string) {
    |prefix| <= |s| && s[..|prefix|] == prefix
  }

  const UNDEFINED := "undefined"

  /** One dimension of a record; a source_ column that is empty falls back on its dest_ one, and the other way round. */
  function DimValue(r: Record, d: seq<string>, keepUndefined: bool): string
    requires d != []
  {
    var key :=
      if d[0] !in r then ""
      else
        var v := r[d[0]];
        if |d| == 1 then
          if v.Str? then v.s else if v.Int? then Itoa(v.n) else ""
        else if v.StrMap? then
          var own := StrAt(v.strs, d[1]);
          if own != "" then own
          else if HasPrefix(d[1], "source_") then StrAt(v.strs, "dest_" + d[1][7..])
          else if HasPrefix(d[1], "dest_") then StrAt(v.strs, "source_" + d[1][5..])
          else ""
        else if v.IntMap? then Itoa(IntAt(v.ints, d[1]))
        else "";
    if keepUndefined && key == "" then UNDEFINED else key
  }

  /** A dimension is a column, a column of a map, or two of those around a joining string. */
  datatype Dimension = Plain(path: seq<string>) | Grouped(lhs: seq<string>, join: string, rhs: seq<string>, name: string) {
    predicate Valid() {
      if Plain? then path != [] else lhs != [] && rhs != []
    }

    function Value(r: Record, keepUndefined: bool): string
      requires Valid()
    {
      match this
      case Plain(path) => DimValue(r, path, keepUndefined)
      case Grouped(lhs, join, rhs, _) => DimValue(r, lhs, keepUndefined) + join + DimValue(r, rhs, keepUndefined)
    }
  }

  predicate ValidDimensions(dims: seq<Dimension>) {
    forall i :: 0 <= i < |dims| ==> dims[i].Valid()
  }

  function Values(r: Record, dims: seq<Dimension>, keepUndefined: bool): seq<string>
    requires ValidDimensions(dims)
  {
    seq(|dims|, i requires 0 <= i < |dims| => dims[i].Value(r, keepUndefined))
  }

  function KeyOf(r: Record, dims: seq<Dimension>, token: string, keepUndefined: bool): string
    requires ValidDimensions(dims)
  {
    Join(Values(r, dims, keepUndefined), token)
  }

  /** The names consumers pair the parts of a key with. */
  function Combo(dims: seq<Dimension>): seq<string>
    requires ValidDimensions(dims)
  {
    seq(|dims|, i requires 0 <= i < |dims| =>
      match dims[i]
      case Plain(path) => if |path| == 1 then path[0] else path[1]
      case Grouped(_, _, _, name) => name)
  }

  /** A column goes by its own name, one of a map by the name of its entry, and a group by its own. */
  lemma ComboNames(dims: seq<Dimension>, i: nat)
    requires ValidDimensions(dims) && i < |dims|
    ensures |Combo(dims)| == |dims|
    ensures forall a :: dims[i] == Plain([a]) ==> Combo(dims)[i] == a
    ensures forall a, b :: dims[i] == Plain([a, b]) ==> Combo(dims)[i] == b
    ensures dims[i].Grouped? ==> Combo(dims)[i] == dims[i].name
  {
  }

  // ---------------------------------------------------------------- what a key shows of a record

  /** The number some digits stand for. */
  function DecimalOf(digits: string): int {
    if digits == "" then 0 else DecimalOf(digits[..|digits| - 1]) * 10 + (digits[|digits| - 1] as int - '0' as int)
  }

  predicate IsNatural(text: string, n: int) {
    && text != "" && (forall i :: 0 <= i < |text| ==> '0' <= text[i] <= '9')
    && (|text| > 1 ==> text[0] != '0')
    && DecimalOf(text) == n
  }

  /** A number in decimal, without leading zeros. */
  predicate IsDecimal(text: string, n: int) {
    if n < 0 then text != "" && text[0] == '-' && IsNatural(text[1..], -n) else IsNatural(text, n)
  }

  /** The entry of a map or nothing. */
  predicate IsEntry(m: map<string, string>, k: string, text: string) {
    if k in m then text == m[k] else text == ""
  }

  /** An entry, or that of the other direction when it is empty. */
  ghost predicate ShowsEntry(m: map<string, string>, k: string, text: string) {
    if k in m && m[k] != "" then text == m[k]
    else
      && (forall x :: k == "source_" + x ==> IsEntry(m, "dest_" + x, text))
      && (forall x :: k == "dest_" + x ==> IsEntry(m, "source_" + x, text))
      && ((forall x :: k != "source_" + x && k != "dest_" + x) ==> text == "")
  }

  /** The text of a column, before an empty one is replaced. */
  ghost predicate ShowsRaw(r: Record, d: seq<string>, text: string)
    requires d != []
  {
    if d[0] !in r then text == ""
    else
      match (r[d[0]], |d| == 1)
      case (Str(s), true) => text == s
      case (Int(n), true) => IsDecimal(text, n)
      case (StrMap(m), false) => ShowsEntry(m, d[1], text)
      case (IntMap(m), false) => IsDecimal(text, if d[1] in m then m[d[1]] else 0)
      case _ => text == ""
  }

  ghost predicate ShowsColumn(r: Record, d: seq<string>, keepUndefined: bool, text: string)
    requires d != []
  {
    if keepUndefined && ShowsRaw(r, d, "") then text == "undefined" else ShowsRaw(r, d, text)
  }

  ghost predicate Shows(r: Record, d: Dimension, keepUndefined: bool, text: string)
    requires d.Valid()
  {
    match d
    case Plain(path) => ShowsColumn(r, path, keepUndefined, text)
    case Grouped(lhs, join, rhs, _) =>
      exists a, b :: ShowsColumn(r, lhs, keepUndefined, a) && ShowsColumn(r, rhs, keepUndefined, b) && text == a + join + b
  }

  ghost predicate ShowsAll(r: Record, dims: seq<Dimension>, keepUndefined: bool, texts: seq<string>)
    requires ValidDimensions(dims)
  {
    |texts| == |dims| && forall i :: 0 <= i < |dims| ==> Shows(r, dims[i], keepUndefined, texts[i])
  }

  lemma {:induction false} DigitsAreNatural(n: nat)
    ensures IsNatural(Digits(n), n) && (n > 0 ==> Digits(n)[0] != '0')
  {
    if n >= 10 {
      DigitsAreNatural(n / 10);
      var before := Digits(n / 10);
      assert Digits(n)[..|Digits(n)| - 1] == before;
    } else {
      assert Digits(n)[..0] == "";
    }
  }

  lemma ItoaIsDecimal(n: int)
    ensures IsDecimal(Itoa(n), n)
  {
    hide IsNatural, Digits;
    DigitsAreNatural(if n < 0 then -n else n);
    assert n < 0 ==> Itoa(n)[1..] == Digits(-n);
  }

  lemma {:induction false} DecimalAtLeast(s: string)
    requires forall i :: 0 <= i < |s| ==> '0' <= s[i] <= '9'
    ensures DecimalOf(s) >= 0
    ensures s != "" && s[0] != '0' ==> DecimalOf(s) > 0
  {
    if s != "" {
      DecimalAtLeast(s[..|s| - 1]);
    }
  }

  lemma {:induction false} OneNatural(s: string, u: string, n: int)
    requires IsNatural(s, n) && IsNatural(u, n)
    ensures s == u
  {
    var a, b := s[..|s| - 1], u[..|u| - 1];
    DecimalAtLeast(a);
    DecimalAtLeast(b);
    assert DecimalOf(a) == DecimalOf(b) && s[|s| - 1] == u[|u| - 1];
    if a != "" && b != "" {
      OneNatural(a, b, DecimalOf(a));
    }
    assert s == a + [s[|s| - 1]] && u == b + [u[|u| - 1]];
  }

  lemma OneDecimal(s: string, u: string, n: int)
    requires IsDecimal(s, n) && IsDecimal(u, n)
    ensures s == u
  {
    hide IsNatural;
    if n < 0 {
      OneNatural(s[1..], u[1..], -n);
      assert s == ['-'] + s[1..] && u == ['-'] + u[1..];
    } else {
      OneNatural(s, u, n);
    }
  }

  lemma OneEntry(m: map<string, string>, k: string, s: string, u: string)
    requires ShowsEntry(m, k, s) && ShowsEntry(m, k, u)
    ensures s == u
  {
    if !(k in m && m[k] != "") {
      if x :| k == "source_" + x {
        assert IsEntry(m, "dest_" + x, s) && IsEntry(m, "dest_" + x, u);
      } else if x :| k == "dest_" + x {
        assert IsEntry(m, "source_" + x, s) && IsEntry(m, "source_" + x, u);
      }
    }
  }

  lemma OneRaw(r: Record, d: seq<string>, s: string, u: string)
    requires d != [] && ShowsRaw(r, d, s) && ShowsRaw(r, d, u)
    ensures s == u
  {
    hide IsDecimal, ShowsEntry;
    if d[0] in r {
      match (r[d[0]], |d| == 1)
      case (Int(n), true) => OneDecimal(s, u, n);
      case (StrMap(m), false) => OneEntry(m, d[1], s, u);
      case (IntMap(m), false) => OneDecimal(s, u, if d[1] in m then m[d[1]] else 0);
      case _ =>
    }
  }

  lemma OneColumn(r: Record, d: seq<string>, keepUndefined: bool, s: string, u: string)
    requires d != [] && ShowsColumn(r, d, keepUndefined, s) && ShowsColumn(r, d, keepUndefined, u)
    ensures s == u
  {
    hide ShowsRaw;
    if !(keepUndefined && ShowsRaw(r, d, "")) {
      OneRaw(r, d, s, u);
    }
  }

  lemma OneText(r: Record, d: Dimension, keepUndefined: bool, s: string, u: string)
    requires d.Valid() && Shows(r, d, keepUndefined, s) && Shows(r, d, keepUndefined, u)
    ensures s == u
  {
    hide ShowsColumn;
    match d
    case Plain(path) => OneColumn(r, path, keepUndefined, s, u);
    case Grouped(lhs, join, rhs, _) =>
      var a, b :| ShowsColumn(r, lhs, keepUndefined, a) && ShowsColumn(r, rhs, keepUndefined, b) && s == a + join + b;
      var v, w :| ShowsColumn(r, lhs, keepUndefined, v) && ShowsColumn(r, rhs, keepUndefined, w) && u == v + join + w;
      OneColumn(r, lhs, keepUndefined, a, v);
      OneColumn(r, rhs, keepUndefined, b, w);
  }

  /** A column of a map with the entry of the other direction to fall back on. */
  lemma EntryShows(m: map<string, string>, k: string)
    ensures ShowsEntry(m, k, if StrAt(m, k) != "" then StrAt(m, k)
                             else if HasPrefix(k, "source_") then StrAt(m, "dest_" + k[7..])
                             else if HasPrefix(k, "dest_") then StrAt(m, "source_" + k[5..])
                             else "")
  {
    forall x | k == "source_" + x ensures HasPrefix(k, "source_") && k[7..] == x {
    }
    forall x | k == "dest_" + x ensures HasPrefix(k, "dest_") && k[5..] == x && !HasPrefix(k, "source_") {
      assert k[0] == 'd';
    }
    if HasPrefix(k, "source_") {
      assert k == "source_" + k[7..];
    }
    if HasPrefix(k, "dest_") {
      assert k == "dest_" + k[5..];
    }
  }

  lemma ColumnShows(r: Record, d: seq<string>, keepUndefined: bool)
    requires d != []
    ensures ShowsColumn(r, d, keepUndefined, DimValue(r, d, keepUndefined))
  {
    hide IsDecimal, ShowsEntry, HasPrefix, Itoa;
    var raw := DimValue(r, d, false);
    forall n: int { ItoaIsDecimal(n); }
    if d[0] in r && r[d[0]].StrMap? && |d| > 1 {
      EntryShows(r[d[0]].strs, d[1]);
    }
    assert ShowsRaw(r, d, raw);
    if ShowsRaw(r, d, "") {
      OneRaw(r, d, raw, "");
    }
  }

  lemma ValuesShow(r: Record, dims: seq<Dimension>, keepUndefined: bool)
    requires ValidDimensions(dims)
    ensures ShowsAll(r, dims, keepUndefined, Values(r, dims, keepUndefined))
  {
    hide ShowsColumn, DimValue;
    forall i | 0 <= i < |dims| ensures Shows(r, dims[i], keepUndefined, Values(r, dims, keepUndefined)[i]) {
      match dims[i]
      case Plain(path) => ColumnShows(r, path, keepUndefined);
      case Grouped(lhs, join, rhs, _) =>
        ColumnShows(r, lhs, keepUndefined);
        ColumnShows(r, rhs, keepUndefined);
    }
  }

  lemma OneForAll(r: Record, dims: seq<Dimension>, keepUndefined: bool, a: seq<string>)
    requires ValidDimensions(dims) && ShowsAll(r, dims, keepUndefined, a)
    ensures a == Values(r, dims, keepUndefined)
  {
    hide Shows, Values;
    var b := Values(r, dims, keepUndefined);
    ValuesShow(r, dims, keepUndefined);
    forall i | 0 <= i < |dims| ensures a[i] == b[i] {
      OneText(r, dims[i], keepUndefined, a[i], b[i]);
    }
  }

  /** Two records whose texts do not interfere with the token have one key exactly when all their texts are the same. */
  lemma SameKeyIff(r: Record, s: Record, dims: seq<Dimension>, token: string, keepUndefined: bool, a: seq<string>, b: seq<string>)
    requires ValidDimensions(dims) && token != ""
    requires ShowsAll(r, dims, keepUndefined, a) && ShowsAll(s, dims, keepUndefined, b)
    requires Splittable(a, token) && Splittable(b, token)
    ensures KeyOf(r, dims, token, keepUndefined) == KeyOf(s, dims, token, keepUndefined) <==> a == b
  {
    hide ShowsAll, Splittable, Split, Join;
    OneForAll(r, dims, keepUndefined, a);
    OneForAll(s, dims, keepUndefined, b);
    NotEmptySplittable(a, token);
    NotEmptySplittable(b, token);
    SplitJoinIff(a, token);
    SplitJoinIff(b, token);
  }

  lemma NotEmptySplittable(parts: seq<string>, token: string)
    requires Splittable(parts, token)
    ensures parts != []
  {
  }

  method GetKey(r: Record, dims: seq<Dimension>, token: string, keepUndefined: bool) returns (key: string)
    requires ValidDimensions(dims)
    ensures key == KeyOf(r, dims, token, keepUndefined)
    ensures exists texts :: ShowsAll(r, dims, keepUndefined, texts) && key == Join(texts, token)
  {
    hide Join, Dimension.Value, ShowsAll;
    var parts: seq<string> := [];
    for i := 0 to |dims|
      invariant |parts| == i
      invariant forall j :: 0 <= j < i ==> parts[j] == dims[j].Value(r, keepUndefined)
    {
      parts := parts + [dims[i].Value(r, keepUndefined)];
    }
    assert parts == Values(r, dims, keepUndefined);
    ValuesShow(r, dims, keepUndefined);
    key := Join(parts, token);
  }

  /** A consumer that splits a key gets exactly the dimension values, in order, exactly when they are splittable. */
  lemma KeyReadsBackIff(r: Record, dims: seq<Dimension>, token: string, keepUndefined: bool)
    requires ValidDimensions(dims) && token != "" && dims != []
    ensures Split(KeyOf(r, dims, token, keepUndefined), token) == Values(r, dims, keepUndefined)
            <==> Splittable(Values(r, dims, keepUndefined), token)
  {
    SplitJoinIff(Values(r, dims, keepUndefined), token);
  }

  ghost predicate HoldsApart(s: string, token: string, n: nat) {
    exists at :: |at| == n && Apart(s, token, at)
  }

  /**
   * Every part of a split key has a name in Combo, so that the consumers' lookups are in range, exactly when there
   * is a dimension and the key does not hold as many tokens, without overlap, as there are dimensions; so it is when
   * the values are splittable.
   */
  lemma ConsumersInRangeIff(r: Record, dims: seq<Dimension>, token: string, keepUndefined: bool)
    requires ValidDimensions(dims) && token != ""
    ensures var key := KeyOf(r, dims, token, keepUndefined);
            && (|Split(key, token)| <= |Combo(dims)| <==> dims != [] && !HoldsApart(key, token, |dims|))
            && (Splittable(Values(r, dims, keepUndefined), token) ==> |Split(key, token)| <= |Combo(dims)|)
  {
    hide Split, Join, Apart, Splittable;
    var key := KeyOf(r, dims, token, keepUndefined);
    var values := Values(r, dims, keepUndefined);
    assert |values| == |dims| == |Combo(dims)|;
    if dims == [] {
      assert values == [];
      NothingSplittable(token);
    } else {
      KeyReadsBackIff(r, dims, token, keepUndefined);
    }
    var at := CutsApart(key, token);
    if |dims| <= |at| {
      FewerApart(key, token, at, |dims|);
    }
    if more :| |more| == |dims| && Apart(key, token, more) {
      NoMoreApart(key, token, more);
    }
  }

  lemma NothingSplittable(token: string)
    ensures !Splittable([], token)
  {
  }

  lemma FewerApart(s: string, token: string, at: seq<nat>, n: nat)
    requires Apart(s, token, at) && n <= |at|
    ensures Apart(s, token, at[..n])
  {
    hide OccursAt;
  }

  /** For a one-character token that means: there is a dimension and no value holds the character. */
  lemma CharacterInRangeIff(r: Record, dims: seq<Dimension>, c: char, keepUndefined: bool)
    requires ValidDimensions(dims)
    ensures |Split(KeyOf(r, dims, [c], keepUndefined), [c])| <= |Combo(dims)|
            <==> dims != [] && forall i :: 0 <= i < |dims| ==> c !in dims[i].Value(r, keepUndefined)
  {
    hide Split, Join;
    var parts := Values(r, dims, keepUndefined);
    if dims != [] {
      SplitCount(parts, c);
      assert forall i :: 0 <= i < |dims| ==> parts[i] == dims[i].Value(r, keepUndefined);
    }
  }
}
