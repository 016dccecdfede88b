/**
 * The IN list findChildren appends to SELECT_CHILD: "(" + the order ids,
 * each as String.valueOf(long), joined by "," + ")". The reading side, as
 * the database reads the list, is given too, so the text can be shown to
 * name exactly the ids it was built from.
 */
module IdList {
  import opened Wrappers

  predicate IsDigit(c: char)
  {
    '0' <= c <= '9'
  }

  function Digit(d: nat): (c: char)
    requires d < 10
    ensures IsDigit(c) && c as int - '0' as int == d
  {
    ('0' as int + d) as char
  }

  /** Decimal digits of n, most significant first, without leading zeros. */
  function NatText(n: nat): (s: string)
    ensures s != [] && forall i | 0 <= i < |s| :: IsDigit(s[i])
  {
    if n < 10 then [Digit(n)] else NatText(n / 10) + [Digit(n % 10)]
  }

  /** String.valueOf(long): a minus sign for negative values, then the digits. */
  function IdText(id: int): (s: string)
    ensures ',' !in s
  {
    if id < 0 then "-" + NatText(-id) else NatText(id)
  }

  function Join(parts: seq<string>): string
  {
    if parts == [] then ""
    else if |parts| == 1 then parts[0]
    else parts[0] + "," + Join(parts[1..])
  }

  /** The text the query is built with. */
  function InList(ids: seq<int>): (s: string)
    ensures |s| >= 2 && s[0] == '(' && s[|s| - 1] == ')'
  {
    "(" + Join(seq(|ids|, i requires 0 <= i < |ids| => IdText(ids[i]))) + ")"
  }

  // ---------------------------------------------------------------------
  // Reading the list back
  // ---------------------------------------------------------------------

  function ParseNat(s: string): nat
    requires forall i | 0 <= i < |s| :: IsDigit(s[i])
  {
    if s == [] then 0
    else
      assert IsDigit(s[|s| - 1]);
      ParseNat(s[..|s| - 1]) * 10 + (s[|s| - 1] as int - '0' as int)
  }

  function ParseId(s: string): Option<int>
  {
    if |s| >= 2 && s[0] == '-' && (forall i | 1 <= i < |s| :: IsDigit(s[i])) then Some(0 - ParseNat(s[1..]) as int)
    else if s != [] && forall i | 0 <= i < |s| :: IsDigit(s[i]) then Some(ParseNat(s))
    else None
  }

  function ParseIds(parts: seq<string>): Option<seq<int>>
  {
    if parts == [] then Some([])
    else match (ParseId(parts[0]), ParseIds(parts[1..]))
      case (Some(id), Some(rest)) => Some([id] + rest)
      case _ => None
  }

  /** Position of the first comma, |s| when there is none. */
  function Comma(s: string): (i: nat)
    ensures i <= |s| && ',' !in s[..i] && (i < |s| ==> s[i] == ',')
  {
    if s == [] then 0 else if s[0] == ',' then 0 else 1 + Comma(s[1..])
  }

  function Split(s: string): (parts: seq<string>)
    ensures parts != []
    decreases |s|
  {
    var i := Comma(s);
    if i == |s| then [s] else [s[..i]] + Split(s[i + 1..])
  }

  /** What the list in `in (...)` reads as: None when it is not a list of integers, as "()" is not. */
  function ParseInList(s: string): Option<seq<int>>
  {
    if |s| >= 2 && s[0] == '(' && s[|s| - 1] == ')' then ParseIds(Split(s[1..|s| - 1])) else None
  }

  // ---------------------------------------------------------------------
  // Round trips
  // ---------------------------------------------------------------------

  lemma {:induction false} ParseNatText(n: nat)
    ensures ParseNat(NatText(n)) == n
  {
    if n >= 10 {
      var s := NatText(n);
      assert s[..|s| - 1] == NatText(n / 10);
      ParseNatText(n / 10);
    }
  }

  lemma ParseIdText(id: int)
    ensures ParseId(IdText(id)) == Some(id)
  {
    var s := IdText(id);
    if id < 0 {
      assert s[1..] == NatText(-id);
      ParseNatText(-id);
    } else {
      ParseNatText(id);
    }
  }

  lemma {:induction false} CommaAfter(p: string, rest: string)
    requires ',' !in p
    ensures Comma(p + "," + rest) == |p|
  {
    if p != [] {
      assert (p + "," + rest)[1..] == p[1..] + "," + rest;
      CommaAfter(p[1..], rest);
    }
  }

  lemma {:induction false} CommaAbsent(s: string)
    requires ',' !in s
    ensures Comma(s) == |s|
  {
    if s != [] {
      CommaAbsent(s[1..]);
    }
  }

  /** Joining parts without commas and splitting again gives the parts back. */
  lemma {:induction false} SplitJoin(parts: seq<string>)
    requires parts != [] && forall i | 0 <= i < |parts| :: ',' !in parts[i]
    ensures Split(Join(parts)) == parts
  {
    if |parts| == 1 {
      CommaAbsent(parts[0]);
    } else {
      var s := Join(parts);
      CommaAfter(parts[0], Join(parts[1..]));
      assert s[..|parts[0]|] == parts[0];
      assert s[|parts[0]| + 1..] == Join(parts[1..]);
      SplitJoin(parts[1..]);
    }
  }

  lemma {:induction false} ParseIdsTexts(ids: seq<int>)
    ensures ParseIds(seq(|ids|, i requires 0 <= i < |ids| => IdText(ids[i]))) == Some(ids)
  {
    var texts := seq(|ids|, i requires 0 <= i < |ids| => IdText(ids[i]));
    if ids != [] {
      ParseIdText(ids[0]);
      assert texts[1..] == seq(|ids[1..]|, i requires 0 <= i < |ids[1..]| => IdText(ids[1..][i]));
      ParseIdsTexts(ids[1..]);
      assert [ids[0]] + ids[1..] == ids;
    }
  }

  /** A nonempty IN list names exactly the ids, in order; the empty one, "()", is not a list at all. */
  lemma InListRoundTrip(ids: seq<int>)
    ensures ids != [] ==> ParseInList(InList(ids)) == Some(ids)
    ensures ids == [] ==> InList(ids) == "()" && ParseInList(InList(ids)) == None
  {
    var texts := seq(|ids|, i requires 0 <= i < |ids| => IdText(ids[i]));
    var s := InList(ids);
    assert s[1..|s| - 1] == Join(texts);
    if ids != [] {
      SplitJoin(texts);
      ParseIdsTexts(ids);
    } else {
      assert Split("") == [""];
    }
  }
}
