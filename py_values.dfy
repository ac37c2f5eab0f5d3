/** The values a parsed configuration holds, and the handful of Python
    built-ins the core applies to them: dict lookup, truthiness, str() and
    int() conversion, iteration, " ".join, str.lstrip and os.path.join. */
module PyValues {
  import opened Results

  /** A configuration value as the TOML loader produces it (floats and
      date-times are not modelled). A dict keeps its insertion order. */
  datatype Value =
    | Str(s: string)
    | Int(i: int)
    | Bool(b: bool)
    | List(items: seq<Value>)
    | Dict(entries: Mapping)

  /** An insertion-ordered dict from string keys. */
  type Mapping = seq<(string, Value)>

  /** A whole parsed configuration: category tables of job tables. */
  type Config = seq<(string, seq<(string, Mapping)>)>

  predicate HasKey<V>(m: seq<(string, V)>, k: string)
  {
    exists i :: 0 <= i < |m| && m[i].0 == k
  }

  /** Python dicts never repeat a key. */
  predicate UniqueKeys<V>(m: seq<(string, V)>)
  {
    forall i, j :: 0 <= i < j < |m| ==> m[i].0 != m[j].0
  }

  /** `m[k]` with the KeyError made explicit: the value bound to `k`. */
  function Get<V>(m: seq<(string, V)>, k: string): (r: Option<V>)
    ensures r.None? <==> !HasKey(m, k)
    ensures r.Some? ==> exists i :: 0 <= i < |m| && m[i] == (k, r.value)
  {
    if m == [] then None
    else if m[0].0 == k then Some(m[0].1)
    else
      var r := Get(m[1..], k);
      assert r.Some? ==> exists i :: 0 <= i < |m[1..]| && m[1..][i] == (k, r.value);
      assert HasKey(m, k) ==> m[0].0 == k || HasKey(m[1..], k) by {
        if HasKey(m, k) {
          var i :| 0 <= i < |m| && m[i].0 == k;
          if i > 0 { assert m[1..][i - 1].0 == k; }
        }
      }
      r
  }

  /** In a dict with unique keys, the entry at position i is what lookup finds. */
  lemma {:induction false} GetAt<V>(m: seq<(string, V)>, i: nat)
    requires UniqueKeys(m) && i < |m|
    ensures Get(m, m[i].0) == Some(m[i].1)
  {
    if i > 0 {
      assert m[0].0 != m[i].0;
      assert UniqueKeys(m[1..]) by {
        forall a, b | 0 <= a < b < |m[1..]| ensures m[1..][a].0 != m[1..][b].0 {
          assert m[1..][a] == m[a + 1] && m[1..][b] == m[b + 1];
        }
      }
      GetAt(m[1..], i - 1);
      assert m[1..][i - 1] == m[i];
    }
  }

  /** Lookup passes over entries whose keys differ from the one sought. */
  lemma {:induction false} GetSkip<V>(a: seq<(string, V)>, b: seq<(string, V)>, k: string)
    requires forall i :: 0 <= i < |a| ==> a[i].0 != k
    ensures Get(a + b, k) == Get(b, k)
  {
    if a != [] {
      assert (a + b)[0] == a[0] && (a + b)[1..] == a[1..] + b;
      assert forall i :: 0 <= i < |a| - 1 ==> a[1..][i] == a[i + 1];
      GetSkip(a[1..], b, k);
    } else {
      assert a + b == b;
    }
  }

  /** `m.get(k, d)`. */
  function GetOr(m: Mapping, k: string, d: Value): (r: Value)
    ensures HasKey(m, k) ==> Some(r) == Get(m, k)
    ensures !HasKey(m, k) ==> r == d
  {
    match Get(m, k)
    case Some(v) => v
    case None => d
  }

  /** Python truthiness of a value, as `if value:` decides. */
  predicate Truthy(v: Value)
  {
    match v
    case Str(s) => s != ""
    case Int(i) => i != 0
    case Bool(b) => b
    case List(items) => items != []
    case Dict(entries) => entries != []
  }

  /** A value handed to subprocess as one argv element: only a string is
      accepted, anything else raises TypeError before a process starts. */
  function AsArg(v: Value): (r: Option<string>)
    ensures r.Some? <==> v.Str?
    ensures v.Str? ==> r.value == v.s
  {
    if v.Str? then Some(v.s) else None
  }

  // ---------------------------------------------------------------------
  // Decimal rendering and parsing of integers: str(int) and int(str).

  predicate IsDigit(c: char)
  {
    '0' <= c <= '9'
  }

  predicate AllDigits(s: string)
  {
    forall i :: 0 <= i < |s| ==> IsDigit(s[i])
  }

  function DigitChar(d: nat): (c: char)
    requires d < 10
    ensures IsDigit(c) && c as int - '0' as int == d
  {
    ('0' as int + d) as char
  }

  /** Decimal digits of a natural number with no leading zeros. */
  function NatToString(n: nat): (s: string)
    ensures |s| > 0 && AllDigits(s)
  {
    if n < 10 then [DigitChar(n)] else NatToString(n / 10) + [DigitChar(n % 10)]
  }

  /** `str(i)` for a Python int. */
  function IntToString(i: int): (s: string)
    ensures |s| > 0 && IsDigit(s[|s| - 1])
    ensures i >= 0 ==> AllDigits(s)
    ensures i < 0 ==> s[0] == '-' && AllDigits(s[1..])
  {
    if i < 0 then "-" + NatToString(-i) else NatToString(i)
  }

  /** The number a string of decimal digits denotes. */
  function DigitsValue(s: string): nat
    requires AllDigits(s)
  {
    if s == [] then 0
    else DigitsValue(s[..|s| - 1]) * 10 + (s[|s| - 1] as int - '0' as int)
  }

  /** The ASCII characters `str.isspace()` holds for: space, tab, line feed,
      vertical tab, form feed, carriage return and the separators 0x1c-0x1f. */
  predicate IsSpace(c: char)
  {
    c == ' ' || 9 <= c as int <= 13 || 28 <= c as int <= 31
  }

  /** `s` without its leading white space. */
  function TrimLeft(s: string): (r: string)
    ensures r == [] || !IsSpace(r[0])
  {
    if s != [] && IsSpace(s[0]) then TrimLeft(s[1..]) else s
  }

  /** `s` without its trailing white space. */
  function TrimRight(s: string): (r: string)
    ensures r == [] || !IsSpace(r[|r| - 1])
  {
    if s != [] && IsSpace(s[|s| - 1]) then TrimRight(s[..|s| - 1]) else s
  }

  /** The value of decimal digits in which single underscores may separate
      two digits, the literal form `int()` accepts (`1_000`); None when `s`
      is not of that form. */
  function GroupsValue(s: string): Option<nat>
  {
    if s == [] || !IsDigit(s[|s| - 1]) then None
    else
      var d := s[|s| - 1] as int - '0' as int;
      var p := s[..|s| - 1];
      if p == [] then Some(d)
      else
        var q := if p[|p| - 1] == '_' then p[..|p| - 1] else p;
        match GroupsValue(q)
        case Some(v) => Some(v * 10 + d)
        case None => None
  }

  /** `int(s)` for a str: surrounding white space is ignored, then an optional
      sign and digit groups; None stands for the ValueError int() raises on
      anything else. */
  function ParseInt(s: string): Option<int>
  {
    ParseSigned(TrimRight(TrimLeft(s)))
  }

  /** An optional sign followed by digit groups. */
  function ParseSigned(t: string): Option<int>
  {
    var signed := |t| > 0 && (t[0] == '-' || t[0] == '+');
    match GroupsValue(if signed then t[1..] else t)
    case Some(n) =>
      var v: int := if signed && t[0] == '-' then -(n as int) else n;
      Some(v)
    case None => None
  }

  lemma {:induction false} DigitsOfNat(n: nat)
    ensures DigitsValue(NatToString(n)) == n
  {
    if n >= 10 {
      var p := NatToString(n / 10);
      var s := p + [DigitChar(n % 10)];
      assert s[..|s| - 1] == p;
      DigitsOfNat(n / 10);
    }
  }

  /** Trimming leaves a string alone that starts and ends in a non-space. */
  lemma TrimUnchanged(s: string)
    requires |s| > 0 && !IsSpace(s[0]) && !IsSpace(s[|s| - 1])
    ensures TrimRight(TrimLeft(s)) == s
  {
  }

  /** A plain run of digits is a single group and reads as its value. */
  lemma {:induction false} GroupsOfDigits(d: string)
    requires |d| > 0 && AllDigits(d)
    ensures GroupsValue(d) == Some(DigitsValue(d))
  {
    if |d| > 1 {
      GroupsOfDigits(d[..|d| - 1]);
    }
  }

  /** A minus sign before a plain run of digits negates its value. */
  lemma ParseNegative(d: string)
    requires |d| > 0 && AllDigits(d)
    ensures ParseSigned("-" + d) == Some(-(DigitsValue(d) as int))
  {
    var t := "-" + d;
    assert |t| > 0 && t[0] == '-' && t[1..] == d;
    GroupsOfDigits(d);
    assert GroupsValue(t[1..]) == Some(DigitsValue(d));
  }

  /** A plain run of digits reads as its value. */
  lemma ParseUnsigned(d: string)
    requires |d| > 0 && AllDigits(d)
    ensures ParseSigned(d) == Some(DigitsValue(d))
  {
    GroupsOfDigits(d);
  }

  /** int(str(i)) == i: the rendering and the parser are inverse. */
  lemma {:induction false} ParseIntRoundTrip(i: int)
    ensures ParseInt(IntToString(i)) == Some(i)
  {
    var s := IntToString(i);
    TrimUnchanged(s);
    if i < 0 {
      var d := NatToString(-i);
      assert s == "-" + d;
      DigitsOfNat(-i);
      ParseNegative(d);
    } else {
      DigitsOfNat(i);
      ParseUnsigned(s);
    }
  }

  /** White space around a number does not change what int() reads. */
  lemma ParseIntIgnoresSpace(before: string, s: string, after: string)
    requires forall i :: 0 <= i < |before| ==> IsSpace(before[i])
    requires forall i :: 0 <= i < |after| ==> IsSpace(after[i])
    requires |s| > 0 && !IsSpace(s[0]) && !IsSpace(s[|s| - 1])
    ensures ParseInt(before + s + after) == ParseInt(s)
  {
    TrimUnchanged(s);
    TrimLeftSpaces(before, s + after);
    assert before + s + after == before + (s + after);
    TrimRightSpaces(s, after);
  }

  lemma {:induction false} TrimLeftSpaces(w: string, s: string)
    requires forall i :: 0 <= i < |w| ==> IsSpace(w[i])
    requires |s| > 0 && !IsSpace(s[0])
    ensures TrimLeft(w + s) == s
  {
    if w != [] {
      assert (w + s)[1..] == w[1..] + s;
      TrimLeftSpaces(w[1..], s);
    } else {
      assert w + s == s;
    }
  }

  lemma {:induction false} TrimRightSpaces(s: string, w: string)
    requires forall i :: 0 <= i < |w| ==> IsSpace(w[i])
    requires |s| > 0 && !IsSpace(s[|s| - 1])
    ensures TrimRight(s + w) == s
  {
    if w != [] {
      var w' := w[..|w| - 1];
      assert (s + w)[..|s + w| - 1] == s + w';
      TrimRightSpaces(s, w');
    } else {
      assert s + w == s;
    }
  }

  /** An underscore between two digits is a group separator: dropping it
      does not change the value. */
  lemma {:induction false} GroupSeparator(a: string, b: string)
    requires |a| > 0 && IsDigit(a[|a| - 1])
    requires |b| > 0 && IsDigit(b[0])
    ensures GroupsValue(a + "_" + b) == GroupsValue(a + b)
    decreases |b|
  {
    var c := b[|b| - 1];
    var b' := b[..|b| - 1];
    assert (a + "_" + b)[..|a + "_" + b| - 1] == a + "_" + b';
    assert (a + b)[..|a + b| - 1] == a + b';
    if b' == [] {
      assert a + "_" + b' == a + "_" && (a + "_")[..|a|] == a;
    } else if b'[|b'| - 1] == '_' {
      var b'' := b'[..|b'| - 1];
      assert (a + "_" + b')[..|a + "_" + b'| - 1] == a + "_" + b'';
      assert (a + b')[..|a + b'| - 1] == a + b'';
      GroupSeparator(a, b'');
    } else {
      GroupSeparator(a, b');
    }
  }

  /** Two underscores in a row are never accepted. */
  lemma {:induction false} DoubledSeparatorRejected(a: string, b: string)
    ensures GroupsValue(a + "__" + b) == None
    decreases |b|
  {
    if b != [] && IsDigit(b[|b| - 1]) {
      var b' := b[..|b| - 1];
      assert (a + "__" + b)[..|a + "__" + b| - 1] == a + "__" + b';
      if b' == [] {
        assert a + "__" + b' == a + "_" + "_" && (a + "__")[..|a| + 1] == a + "_";
      } else if b'[|b'| - 1] == '_' {
        assert (a + "__" + b')[..|a + "__" + b'| - 1] == a + "__" + b'[..|b'| - 1];
        DoubledSeparatorRejected(a, b'[..|b'| - 1]);
      } else {
        DoubledSeparatorRejected(a, b');
      }
    }
  }

  /** Digits cannot start with an underscore. */
  lemma {:induction false} LeadingSeparatorRejected(b: string)
    ensures GroupsValue("_" + b) == None
    decreases |b|
  {
    if b != [] && IsDigit(b[|b| - 1]) {
      var b' := b[..|b| - 1];
      assert ("_" + b)[..|b|] == "_" + b';
      if b' != [] {
        if b'[|b'| - 1] == '_' {
          assert ("_" + b')[..|b'|] == "_" + b'[..|b'| - 1];
          LeadingSeparatorRejected(b'[..|b'| - 1]);
        } else {
          LeadingSeparatorRejected(b');
        }
      }
    }
  }

  /** str() of a value inside an f-string: strings, ints and bools as Python
      prints them; None for a list or dict, whose repr is not modelled. */
  function Format(v: Value): (r: Option<string>)
    ensures r.Some? <==> (v.Str? || v.Int? || v.Bool?)
    ensures v.Str? ==> r == Some(v.s)
    ensures v.Int? ==> r == Some(IntToString(v.i))
  {
    match v
    case Str(s) => Some(s)
    case Int(i) => Some(IntToString(i))
    case Bool(b) => Some(if b then "True" else "False")
    case _ => None
  }

  /** `int(v)` applied to the value of config key `key`. */
  function PyInt(v: Value, key: string): (r: Result<int>)
    ensures v.Int? ==> r == Ok(v.i)
    ensures (v.List? || v.Dict?) ==> r == Err(WrongType(key))
    ensures v.Str? ==> (r.Ok? <==> ParseInt(v.s).Some?)
  {
    match v
    case Int(i) => Ok(i)
    case Bool(b) => Ok(if b then 1 else 0)
    case Str(s) =>
      (match ParseInt(s)
       case Some(n) => Ok(n)
       case None => Err(BadInt(key)))
    case _ => Err(WrongType(key))
  }

  // ---------------------------------------------------------------------
  // Iteration, joining and path manipulation.

  function Keys(m: Mapping): (r: seq<string>)
    ensures |r| == |m| && forall i :: 0 <= i < |m| ==> r[i] == m[i].0
  {
    if m == [] then [] else [m[0].0] + Keys(m[1..])
  }

  function Chars(s: string): (r: seq<Value>)
    ensures |r| == |s| && forall i :: 0 <= i < |s| ==> r[i] == Str([s[i]])
  {
    if s == [] then [] else [Str([s[0]])] + Chars(s[1..])
  }

  /** `for x in v`: a list yields its items, a string its characters, a dict
      its keys; None stands for the TypeError an int or bool raises. */
  function Iter(v: Value): (r: Option<seq<Value>>)
    ensures r.None? <==> (v.Int? || v.Bool?)
    ensures v.List? ==> r == Some(v.items)
  {
    match v
    case List(items) => Some(items)
    case Str(s) => Some(Chars(s))
    case Dict(entries) =>
      var ks := Keys(entries);
      Some(seq(|ks|, i requires 0 <= i < |ks| => Str(ks[i])))
    case _ => None
  }

  /** The strings of a sequence all of whose elements are strings. */
  function Strings(vs: seq<Value>): (r: Option<seq<string>>)
    ensures r.Some? <==> forall i :: 0 <= i < |vs| ==> vs[i].Str?
    ensures r.Some? ==> |r.value| == |vs| && forall i :: 0 <= i < |vs| ==> r.value[i] == vs[i].s
  {
    if vs == [] then Some([])
    else if !vs[0].Str? then None
    else
      match Strings(vs[1..])
      case None => None
      case Some(rest) => Some([vs[0].s] + rest)
  }

  /** `sep.join(parts)`. */
  function JoinWith(sep: string, parts: seq<string>): string
  {
    if parts == [] then ""
    else if |parts| == 1 then parts[0]
    else parts[0] + sep + JoinWith(sep, parts[1..])
  }

  /** `s.lstrip('/')`. */
  function LStripSlash(s: string): (r: string)
    ensures r == [] || r[0] != '/'
    ensures |r| <= |s| && s[|s| - |r|..] == r
    ensures forall i :: 0 <= i < |s| - |r| ==> s[i] == '/'
  {
    if s != [] && s[0] == '/' then LStripSlash(s[1..]) else s
  }

  /** `os.path.join(a, b)` on POSIX. */
  function PosixJoin(a: string, b: string): string
  {
    if |b| > 0 && b[0] == '/' then b
    else if a == [] || a[|a| - 1] == '/' then a + b
    else a + "/" + b
  }
}
