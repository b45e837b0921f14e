/** Python semantics the validators rely on: the scalar values a record holds,
    `str()`, truthiness, `str.strip()`, `str.lower()`, and lookup and item
    assignment on insertion-ordered dictionaries. */
module Python {

  datatype Option<+T> = None | Some(value: T) {
    /** `dict.get(key, default)` once the lookup is done. */
    function GetOr(default: T): T {
      match this
      case Some(v) => v
      case None => default
    }
  }

  /** A scalar held by a record: a Python str, int, bool or None. */
  datatype Value = Str(s: string) | Int(i: int) | Bool(b: bool) | Null

  /** The exceptions that the modelled code lets escape to its caller. */
  datatype Exception = TypeError | KeyError(key: string) | IndexError

  /** A Python call either returns a value or raises. */
  datatype Outcome<+T> = Returned(value: T) | Raised(exception: Exception)

  // ---------------------------------------------------------------------------
  // Characters

  predicate IsDigit(c: char) { '0' <= c <= '9' }

  predicate IsAsciiLetter(c: char) { 'a' <= c <= 'z' || 'A' <= c <= 'Z' }

  /** `str.isspace()` for one character, which is also what `\s` matches in a
      `str` regular expression: the characters whose bidirectional class is
      WS, B or S, or whose general category is Zs. */
  predicate IsSpace(c: char) {
    || ('\t' <= c <= '\r')
    || ('\U{1c}' <= c <= '\U{1f}')
    || c == ' ' || c == '\U{85}' || c == '\U{a0}' || c == '\U{1680}'
    || ('\U{2000}' <= c <= '\U{200a}')
    || c == '\U{2028}' || c == '\U{2029}' || c == '\U{202f}' || c == '\U{205f}'
    || c == '\U{3000}'
  }

  function DigitValue(c: char): nat
    requires IsDigit(c)
  {
    c as int - '0' as int
  }

  function DigitChar(d: nat): (c: char)
    requires d < 10
    ensures IsDigit(c) && DigitValue(c) == d
  {
    ('0' as int + d) as char
  }

  predicate AllDigits(s: string) {
    forall i :: 0 <= i < |s| ==> IsDigit(s[i])
  }

  /** The number that a string of ASCII digits denotes. */
  function DecimalValue(s: string): nat
    requires AllDigits(s)
  {
    if s == [] then 0 else DecimalValue(s[..|s| - 1]) * 10 + DigitValue(s[|s| - 1])
  }

  // ---------------------------------------------------------------------------
  // str()

  /** `str(n)` for an int n >= 0: decimal digits without leading zeros, which
      read back as n. */
  function NatToString(n: nat): (r: string)
    ensures |r| > 0 && AllDigits(r)
    ensures |r| > 1 ==> r[0] != '0'
    ensures DecimalValue(r) == n
  {
    if n < 10 then
      [DigitChar(n)]
    else
      var prefix := NatToString(n / 10);
      var r := prefix + [DigitChar(n % 10)];
      assert r[..|r| - 1] == prefix;
      r
  }

  /** `str(i)` for any int. */
  function IntToString(i: int): string {
    if i < 0 then "-" + NatToString(-i) else NatToString(i)
  }

  /** `str(v)`. */
  function ToStr(v: Value): string {
    match v
    case Str(s) => s
    case Int(i) => IntToString(i)
    case Bool(b) => if b then "True" else "False"
    case Null => "None"
  }

  /** `bool(v)`: empty strings, 0, False and None are falsy. */
  predicate Truthy(v: Value) {
    match v
    case Str(s) => s != ""
    case Int(i) => i != 0
    case Bool(b) => b
    case Null => false
  }

  // ---------------------------------------------------------------------------
  // str.strip() and str.lower()

  function TrimStart(s: string): (r: string)
    ensures |r| <= |s| && r == s[|s| - |r|..]
    ensures forall i :: 0 <= i < |s| - |r| ==> IsSpace(s[i])
    ensures |r| > 0 ==> !IsSpace(r[0])
  {
    if |s| > 0 && IsSpace(s[0]) then TrimStart(s[1..]) else s
  }

  function TrimEnd(s: string): (r: string)
    ensures |r| <= |s| && r == s[..|r|]
    ensures forall i :: |r| <= i < |s| ==> IsSpace(s[i])
    ensures |r| > 0 ==> !IsSpace(r[|r| - 1])
  {
    if |s| > 0 && IsSpace(s[|s| - 1]) then TrimEnd(s[..|s| - 1]) else s
  }

  /** `s.strip()`. */
  function Strip(s: string): string {
    TrimEnd(TrimStart(s))
  }

  /** `not s.strip()`: the test the validators use for a blank value. */
  predicate IsBlank(s: string) {
    Strip(s) == ""
  }

  /** A string that starts with a non-whitespace character is not blank. */
  lemma NotBlankWhenLeadingText(s: string)
    requires |s| > 0 && !IsSpace(s[0])
    ensures !IsBlank(s)
  {
    BlankIffAllSpace(s);
  }

  /** A string that neither starts nor ends with whitespace is its own strip. */
  lemma StripUntrimmed(s: string)
    requires |s| > 0 && !IsSpace(s[0]) && !IsSpace(s[|s| - 1])
    ensures Strip(s) == s
  {
    assert TrimStart(s) == s;
  }

  /** A stripped string has no whitespace at either end, so stripping it
      again changes nothing. */
  lemma StripIdempotent(s: string)
    ensures var t := Strip(s); |t| > 0 ==> !IsSpace(t[0]) && !IsSpace(t[|t| - 1])
    ensures Strip(Strip(s)) == Strip(s)
  {
    var t := Strip(s);
    var u := TrimStart(s);
    if |t| > 0 {
      assert t[0] == u[0];
    }
  }

  /** A string strips to nothing exactly when every character is whitespace. */
  lemma BlankIffAllSpace(s: string)
    ensures IsBlank(s) <==> forall i :: 0 <= i < |s| ==> IsSpace(s[i])
  {
    var t := TrimStart(s);
    if IsBlank(s) {
      assert t == "";
    } else {
      var r := TrimEnd(t);
      assert |r| > 0 && !IsSpace(r[0]);
      assert r[0] == s[|s| - |t|];
    }
  }

  /** `str(v).strip()` is never empty for an int, a bool or None: False, 0 and
      None count as present where presence is tested by stripping. */
  lemma NonStringNeverBlank(v: Value)
    requires !v.Str?
    ensures !IsBlank(ToStr(v))
  {
    var s := ToStr(v);
    assert !IsSpace(s[0]) by {
      match v
      case Int(i) =>
        if i >= 0 { assert IsDigit(s[0]); } else { assert s[0] == '-'; }
      case Bool(b) =>
      case Null =>
    }
    BlankIffAllSpace(s);
  }

  /** `c.lower()` for a character whose lower-case form is one character; the
      model lower-cases ASCII letters and leaves every other character as is. */
  function LowerChar(c: char): char {
    if 'A' <= c <= 'Z' then (c as int - 'A' as int + 'a' as int) as char else c
  }

  /** `s.lower()` (ASCII letters only). */
  function Lower(s: string): (r: string)
    ensures |r| == |s|
  {
    if s == [] then [] else [LowerChar(s[0])] + Lower(s[1..])
  }

  /** Lowering changes each character on its own: a string whose characters
      all lower to `t`'s lowers to `t`. */
  lemma {:induction false} LowerTo(s: string, t: string)
    requires |s| == |t| && forall i :: 0 <= i < |s| ==> LowerChar(s[i]) == t[i]
    ensures Lower(s) == t
  {
    if s != [] {
      assert forall i :: 0 <= i < |s| - 1 ==> s[1..][i] == s[i + 1] && t[1..][i] == t[i + 1];
      LowerTo(s[1..], t[1..]);
      assert t == [t[0]] + t[1..];
    }
  }

  // ---------------------------------------------------------------------------
  // Lists

  /** Appending is associative; stated once so that a proof can regroup a
      list built one append at a time. */
  lemma AppendAssociative<T>(a: seq<T>, b: seq<T>, c: seq<T>)
    ensures a + (b + c) == (a + b) + c
  {
  }

  // ---------------------------------------------------------------------------
  // Dictionaries as insertion-ordered entry lists

  /** A record: `dict[str, scalar]` in insertion order. */
  type Record = seq<(string, Value)>

  predicate HasKey<V>(entries: seq<(string, V)>, key: string) {
    exists i :: 0 <= i < |entries| && entries[i].0 == key
  }

  function KeysOf<V>(entries: seq<(string, V)>): seq<string> {
    seq(|entries|, i requires 0 <= i < |entries| => entries[i].0)
  }

  predicate DistinctKeys<V>(entries: seq<(string, V)>) {
    forall i, j :: 0 <= i < j < |entries| ==> entries[i].0 != entries[j].0
  }

  /** `d.get(key)`: the value stored under the key, found at the first entry
      that has it. */
  function Lookup<V>(entries: seq<(string, V)>, key: string): (r: Option<V>)
    ensures r.Some? <==> HasKey(entries, key)
    ensures r.Some? ==> exists i :: 0 <= i < |entries| && entries[i] == (key, r.value)
  {
    if entries == [] then None
    else if entries[0].0 == key then Some(entries[0].1)
    else
      var r := Lookup(entries[1..], key);
      assert r.Some? ==> exists i :: 0 <= i < |entries| && entries[i] == (key, r.value) by {
        if r.Some? {
          var i :| 0 <= i < |entries[1..]| && entries[1..][i] == (key, r.value);
          assert entries[i + 1] == (key, r.value);
        }
      }
      assert HasKey(entries, key) ==> HasKey(entries[1..], key) by {
        if HasKey(entries, key) {
          var i :| 0 <= i < |entries| && entries[i].0 == key;
          assert entries[1..][i - 1].0 == key;
        }
      }
      r
  }

  /** `d[key] = value`: a new key goes to the end, an existing key keeps its
      place and takes the new value. */
  function Assign<V>(entries: seq<(string, V)>, key: string, value: V): seq<(string, V)> {
    if entries == [] then [(key, value)]
    else if entries[0].0 == key then [(key, value)] + entries[1..]
    else [entries[0]] + Assign(entries[1..], key, value)
  }

  /** After `d[key] = value` the key looks up the new value and every other
      key what it looked up before. */
  lemma {:induction false} AssignLookup<V>(entries: seq<(string, V)>, key: string, value: V, other: string)
    ensures Lookup(Assign(entries, key, value), other) == if other == key then Some(value) else Lookup(entries, other)
  {
    if entries != [] {
      var r := Assign(entries, key, value);
      if entries[0].0 == key {
        assert r[1..] == entries[1..];
      } else {
        assert r[1..] == Assign(entries[1..], key, value);
        AssignLookup(entries[1..], key, value, other);
      }
    }
  }

  /** A new key is appended. */
  lemma {:induction false} AssignNew<V>(entries: seq<(string, V)>, key: string, value: V)
    requires !HasKey(entries, key)
    ensures Assign(entries, key, value) == entries + [(key, value)]
  {
    if entries != [] {
      assert entries[0].0 != key;
      forall j | 0 <= j < |entries[1..]| ensures entries[1..][j].0 != key {
        assert entries[1..][j] == entries[j + 1];
      }
      AssignNew(entries[1..], key, value);
      assert [entries[0]] + (entries[1..] + [(key, value)]) == entries + [(key, value)];
    }
  }

  /** The lookup finds the first entry with the key. */
  lemma {:induction false} LookupAt<V>(entries: seq<(string, V)>, i: int, key: string)
    requires 0 <= i < |entries| && entries[i].0 == key
    requires forall j :: 0 <= j < i ==> entries[j].0 != key
    ensures Lookup(entries, key) == Some(entries[i].1)
  {
    if i > 0 {
      assert entries[0].0 != key;
      assert entries[1..][i - 1] == entries[i];
      LookupAt(entries[1..], i - 1, key);
    }
  }

  /** Looking a key up after appending entries: the earlier entries win. */
  lemma {:induction false} LookupConcat<V>(a: seq<(string, V)>, b: seq<(string, V)>, key: string)
    ensures Lookup(a + b, key) == if HasKey(a, key) then Lookup(a, key) else Lookup(b, key)
  {
    if a == [] {
      assert a + b == b;
    } else {
      assert (a + b)[1..] == a[1..] + b;
      if a[0].0 != key {
        LookupConcat(a[1..], b, key);
        assert HasKey(a, key) <==> HasKey(a[1..], key) by {
          if HasKey(a, key) {
            var i :| 0 <= i < |a| && a[i].0 == key;
            assert a[1..][i - 1].0 == key;
          }
          if HasKey(a[1..], key) {
            var i :| 0 <= i < |a[1..]| && a[1..][i].0 == key;
            assert a[i + 1].0 == key;
          }
        }
      }
    }
  }

  /** `d[key] = value` keeps the keys and their order, adding the key at the
      end when it is new. */
  lemma {:induction false} AssignKeys<V>(entries: seq<(string, V)>, key: string, value: V)
    ensures KeysOf(Assign(entries, key, value))
            == if HasKey(entries, key) then KeysOf(entries) else KeysOf(entries) + [key]
  {
    if entries != [] && entries[0].0 != key {
      var tail := Assign(entries[1..], key, value);
      AssignKeys(entries[1..], key, value);
      assert Assign(entries, key, value) == [entries[0]] + tail;
      HasKeyTail(entries, key);
      KeysOfCons(entries[0], entries[1..]);
      assert [entries[0]] + entries[1..] == entries;
      KeysOfCons(entries[0], tail);
    } else if entries != [] {
      assert HasKey(entries, key);
      assert Assign(entries, key, value) == [(key, value)] + entries[1..];
      KeysOfCons((key, value), entries[1..]);
      KeysOfCons(entries[0], entries[1..]);
      assert [entries[0]] + entries[1..] == entries;
    }
  }

  lemma KeysOfCons<V>(first: (string, V), rest: seq<(string, V)>)
    ensures KeysOf([first] + rest) == [first.0] + KeysOf(rest)
  {
  }

  /** `d[key] = value` changes no value but the one under the key. */
  lemma {:induction false} AssignValues<V>(entries: seq<(string, V)>, key: string, value: V)
    ensures var r := Assign(entries, key, value);
            forall i :: 0 <= i < |r| ==> r[i].1 == value || (i < |entries| && r[i] == entries[i])
  {
    var r := Assign(entries, key, value);
    if entries != [] && entries[0].0 != key {
      var tail := Assign(entries[1..], key, value);
      AssignValues(entries[1..], key, value);
      assert r == [entries[0]] + tail;
      forall i | 0 <= i < |r| ensures r[i].1 == value || (i < |entries| && r[i] == entries[i]) {
        if i > 0 {
          assert r[i] == tail[i - 1];
          assert i - 1 < |entries[1..]| ==> entries[1..][i - 1] == entries[i];
        }
      }
    } else if entries != [] {
      assert r == [(key, value)] + entries[1..];
    }
  }

  /** A key other than the first one's is in the entries exactly when it is
      in their tail. */
  lemma HasKeyTail<V>(entries: seq<(string, V)>, key: string)
    requires entries != [] && entries[0].0 != key
    ensures HasKey(entries, key) <==> HasKey(entries[1..], key)
  {
    if HasKey(entries, key) {
      var i :| 0 <= i < |entries| && entries[i].0 == key;
      assert entries[1..][i - 1].0 == key;
    }
    if HasKey(entries[1..], key) {
      var i :| 0 <= i < |entries[1..]| && entries[1..][i].0 == key;
      assert entries[i + 1].0 == key;
    }
  }

  /** Keys stay distinct under `d[key] = value`. */
  lemma AssignDistinct<V>(entries: seq<(string, V)>, key: string, value: V)
    requires DistinctKeys(entries)
    ensures DistinctKeys(Assign(entries, key, value))
  {
    var r := Assign(entries, key, value);
    AssignKeys(entries, key, value);
    forall i, j | 0 <= i < j < |r| ensures r[i].0 != r[j].0 {
      assert r[i].0 == KeysOf(r)[i] && r[j].0 == KeysOf(r)[j];
      if j < |entries| {
        assert KeysOf(r)[i] == entries[i].0 && KeysOf(r)[j] == entries[j].0;
      } else {
        assert !HasKey(entries, key);
        assert KeysOf(r)[i] == entries[i].0;
      }
    }
  }
}
