/** Failure and absence, and the byte-wise order of strings shared by every module. */
module Prelude {
  datatype Option<+T> = None | Some(value: T)

  datatype Result<+T, +E> = Ok(value: T) | Err(error: E) {
    predicate IsFailure() {
      Err?
    }

    function PropagateFailure<U>(): Result<U, E>
      requires Err?
    {
      Err(error)
    }

    function Extract(): T
      requires Ok?
    {
      value
    }
  }

  /** An opaque identifier, idempotency key or lease token. */
  datatype Id = Id(text: string)

  const U32_MAX: nat := 4294967295
  const U64_MAX: nat := 18446744073709551615

  /** The order of `ORDER BY` and of `BTreeSet<&str>`: first difference decides, a prefix comes first. */
  predicate LexLess(a: string, b: string) {
    if |b| == 0 then false
    else if |a| == 0 then true
    else if a[0] == b[0] then LexLess(a[1..], b[1..])
    else a[0] < b[0]
  }

  /** The first difference decides, and a proper prefix comes first. */
  ghost predicate Before(a: string, b: string) {
    exists k :: 0 <= k <= |a| && k <= |b| && a[..k] == b[..k] && k < |b| && (k == |a| || a[k] < b[k])
  }

  lemma {:induction false} LessIsBefore(a: string, b: string)
    ensures LexLess(a, b) <==> Before(a, b)
  {
    if |b| > 0 {
      if |a| == 0 {
        assert a[..0] == b[..0];
      } else if a[0] == b[0] {
        LessIsBefore(a[1..], b[1..]);
        if Before(a[1..], b[1..]) {
          var k :| 0 <= k <= |a[1..]| && k <= |b[1..]| && a[1..][..k] == b[1..][..k] && k < |b[1..]|
                   && (k == |a[1..]| || a[1..][k] < b[1..][k]);
          assert a[..k + 1] == [a[0]] + a[1..][..k] && b[..k + 1] == [b[0]] + b[1..][..k];
          assert Before(a, b);
        }
        if Before(a, b) {
          var k :| 0 <= k <= |a| && k <= |b| && a[..k] == b[..k] && k < |b| && (k == |a| || a[k] < b[k]);
          assert a[1..][..k - 1] == a[..k][1..] && b[1..][..k - 1] == b[..k][1..];
          assert Before(a[1..], b[1..]);
        }
      } else {
        assert a[..0] == b[..0];
        assert forall k :: 0 < k <= |a| && k <= |b| ==> a[..k][0] == a[0] && b[..k][0] == b[0];
      }
    }
  }

  lemma {:induction false} LexIrreflexive(a: string)
    ensures !LexLess(a, a)
  {
    if |a| > 0 { LexIrreflexive(a[1..]); }
  }

  lemma {:induction false} LexTransitive(a: string, b: string, c: string)
    requires LexLess(a, b) && LexLess(b, c)
    ensures LexLess(a, c)
  {
    if |a| > 0 && a[0] == b[0] == c[0] { LexTransitive(a[1..], b[1..], c[1..]); }
  }

  lemma {:induction false} LexTotal(a: string, b: string)
    ensures LexLess(a, b) || a == b || LexLess(b, a)
  {
    if |a| > 0 && |b| > 0 && a[0] == b[0] {
      LexTotal(a[1..], b[1..]);
      assert a == [a[0]] + a[1..] && b == [b[0]] + b[1..];
    }
  }

  lemma LexAsymmetric(a: string, b: string)
    requires LexLess(a, b)
    ensures !LexLess(b, a)
  {
    if LexLess(b, a) {
      LexTransitive(a, b, a);
      LexIrreflexive(a);
    }
  }

  predicate StrictlyIncreasing(values: seq<string>) {
    forall i :: 0 < i < |values| ==> LexLess(values[i - 1], values[i])
  }

  lemma {:induction false} IncreasingOrders(values: seq<string>, i: nat, j: nat)
    requires StrictlyIncreasing(values) && i < j < |values|
    ensures LexLess(values[i], values[j])
  {
    if i + 1 < j {
      IncreasingOrders(values, i, j - 1);
      LexTransitive(values[i], values[j - 1], values[j]);
    }
  }

  /** `ORDER BY stamp, id`. */
  predicate StampBefore(s: nat, a: Id, t: nat, b: Id) {
    s < t || (s == t && LexLess(a.text, b.text))
  }

  lemma StampOrderIsTotal(s: nat, a: Id, t: nat, b: Id)
    ensures a == b || StampBefore(s, a, t, b) || StampBefore(t, b, s, a)
    ensures StampBefore(s, a, t, b) ==> !StampBefore(t, b, s, a)
  {
    LexTotal(a.text, b.text);
    LexIrreflexive(a.text);
    if LexLess(a.text, b.text) { LexAsymmetric(a.text, b.text); }
    assert a == Id(a.text) && b == Id(b.text);
  }

  lemma StampOrderIsTransitive(s: nat, a: Id, t: nat, b: Id, u: nat, c: Id)
    requires StampBefore(s, a, t, b) && StampBefore(t, b, u, c)
    ensures StampBefore(s, a, u, c)
  {
    if LexLess(a.text, b.text) && LexLess(b.text, c.text) { LexTransitive(a.text, b.text, c.text); }
  }

  lemma {:induction false} FirstExists(stamps: map<Id, nat>) returns (first: Id)
    requires stamps.Keys != {}
    ensures first in stamps
    ensures forall b :: b in stamps ==> b == first || StampBefore(stamps[first], first, stamps[b], b)
    decreases |stamps.Keys|
  {
    var a :| a in stamps.Keys;
    var rest := stamps - {a};
    assert rest.Keys == stamps.Keys - {a};
    assert forall b :: b in stamps ==> b == a || (b in rest && rest[b] == stamps[b]);
    if rest.Keys == {} {
      assert forall b :: b in stamps ==> b == a;
      return a;
    }
    var m := FirstExists(rest);
    StampOrderIsTotal(stamps[a], a, stamps[m], m);
    if StampBefore(stamps[m], m, stamps[a], a) {
      return m;
    }
    forall b | b in stamps && b != a ensures StampBefore(stamps[a], a, stamps[b], b) {
      if b != m { StampOrderIsTransitive(stamps[a], a, stamps[m], m, stamps[b], b); }
    }
    return a;
  }
}
