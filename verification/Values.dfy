/** Cell values and literals, and the order of text by code points. */
module Values {
  /** Numbers are exact; `Other` stands for any value that is neither a truth value, a number nor text. */
  datatype Value = Null | Bool(b: bool) | Num(n: real) | Text(s: string) | Other(id: nat)

  predicate TextLess(a: string, b: string) {
    if b == "" then false
    else if a == "" then true
    else a[0] < b[0] || (a[0] == b[0] && TextLess(a[1..], b[1..]))
  }

  /** By code points: a proper prefix, or the smaller character where the texts first differ. */
  ghost predicate ComesBefore(a: string, b: string) {
    a < b || exists i :: 0 <= i < |a| && i < |b| && a[..i] == b[..i] && a[i] < b[i]
  }

  lemma {:induction false} TextLessIff(a: string, b: string)
    ensures TextLess(a, b) <==> ComesBefore(a, b)
  {
    if a != "" && b != "" && a[0] == b[0] {
      TextLessIff(a[1..], b[1..]);
      assert a == a[..1] + a[1..] && b == b[..1] + b[1..] && a[..1] == b[..1];
      if i :| 0 <= i < |a[1..]| && i < |b[1..]| && a[1..][..i] == b[1..][..i] && a[1..][i] < b[1..][i] {
        assert a[..i + 1] == a[..1] + a[1..][..i] && b[..i + 1] == b[..1] + b[1..][..i];
        assert a[i + 1] < b[i + 1];
      }
      if i :| 0 <= i < |a| && i < |b| && a[..i] == b[..i] && a[i] < b[i] {
        assert a[1..][..i - 1] == a[..i][1..] && b[1..][..i - 1] == b[..i][1..];
        assert a[1..][i - 1] < b[1..][i - 1];
      }
    } else if a != "" && b != "" && a[0] < b[0] {
      assert a[..0] == b[..0];
    } else if a != "" && b != "" {
      HeadsDiffer(a, b);
    }
  }

  lemma HeadsDiffer(a: string, b: string)
    requires a != "" && b != "" && a[0] != b[0]
    ensures forall i | 0 < i <= |a| && i <= |b| :: a[..i] != b[..i]
  {
    assert forall i | 0 < i <= |a| && i <= |b| :: a[..i][0] == a[0] && b[..i][0] == b[0];
  }

  lemma {:induction false} TextTrichotomy(a: string, b: string)
    ensures TextLess(a, b) <==> !TextLess(b, a) && a != b
  {
    if a != "" && b != "" {
      TextTrichotomy(a[1..], b[1..]);
      assert a == a[..1] + a[1..] && b == b[..1] + b[1..];
    }
  }

  lemma {:induction false} TextTransitive(a: string, b: string, c: string)
    requires TextLess(a, b) && TextLess(b, c)
    ensures TextLess(a, c)
  {
    if a != "" && a[0] == b[0] == c[0] {
      TextTransitive(a[1..], b[1..], c[1..]);
    }
  }

  /** Two numbers, or two texts. */
  predicate SameKind(a: Value, b: Value) {
    (a.Num? && b.Num?) || (a.Text? && b.Text?)
  }

  predicate Under(a: Value, b: Value) {
    SameKind(a, b) && if a.Num? then a.n < b.n else TextLess(a.s, b.s)
  }

  predicate AtMost(a: Value, b: Value) {
    Under(a, b) || (SameKind(a, b) && a == b)
  }

  /** Numbers are ordered by size, texts by code points. */
  lemma OrderMeaning(x: real, y: real, a: string, b: string)
    ensures Under(Num(x), Num(y)) <==> x < y
    ensures AtMost(Num(x), Num(y)) <==> x <= y
    ensures Under(Text(a), Text(b)) <==> ComesBefore(a, b)
    ensures AtMost(Text(a), Text(b)) <==> a == b || ComesBefore(a, b)
  {
    TextLessIff(a, b);
  }

  lemma OrderFacts(a: Value, b: Value, c: Value)
    requires SameKind(a, b) && SameKind(b, c)
    ensures AtMost(a, b) <==> !Under(b, a)
    ensures AtMost(a, b) && AtMost(b, c) ==> AtMost(a, c)
    ensures AtMost(a, b) && Under(b, c) ==> Under(a, c)
    ensures Under(a, b) && AtMost(b, c) ==> Under(a, c)
    ensures AtMost(a, b) && AtMost(b, a) ==> a == b
  {
    if a.Text? {
      TextTrichotomy(a.s, b.s);
      TextTrichotomy(b.s, c.s);
      if TextLess(a.s, b.s) && TextLess(b.s, c.s) {
        TextTransitive(a.s, b.s, c.s);
      }
    }
  }
}
