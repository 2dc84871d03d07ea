/** The in-memory capacity ledger of the compiler cache (internal/compilecache/service.go,
    addCapacityLocked and reserveCapacity) and what it has to agree with: the charges of the stored
    entries and of operations under way. */
module CompileLedger {
  datatype Usage = Usage(bytes: int, entries: int) {
    function Plus(other: Usage): Usage {
      Usage(bytes + other.bytes, entries + other.entries)
    }

    function Negated(): Usage {
      Usage(-bytes, -entries)
    }

    predicate Within(limit: Usage) {
      bytes <= limit.bytes && entries <= limit.entries
    }
  }

  const ZERO := Usage(0, 0)

  /** namespaces is counted separately from the map of the namespaces that are not empty. */
  datatype Ledger = Ledger(total: Usage, perNamespace: map<string, Usage>, namespaces: int)

  const EMPTY := Ledger(ZERO, map[], 0)

  datatype Scope = Everything | Only(namespace: string)

  /** What the ledger says about everything or about one namespace. */
  function Reading(l: Ledger, scope: Scope): Usage {
    match scope
    case Everything => l.total
    case Only(namespace) => if namespace in l.perNamespace then l.perNamespace[namespace] else ZERO
  }

  /** addCapacityLocked */
  function AddTo(l: Ledger, namespace: string, amount: Usage): Ledger {
    var current := Reading(l, Only(namespace));
    var next := current.Plus(amount);
    Ledger(
      l.total.Plus(amount),
      if next == ZERO then l.perNamespace - {namespace} else l.perNamespace[namespace := next],
      l.namespaces + (if current == ZERO && next != ZERO then 1 else 0) - (if current != ZERO && next == ZERO then 1 else 0))
  }

  /** The map holds the namespaces that are not empty, and the counter counts them. */
  predicate Tidy(l: Ledger) {
    l.namespaces == |l.perNamespace| && forall n | n in l.perNamespace :: l.perNamespace[n] != ZERO
  }

  lemma AddKeepsTidy(l: Ledger, namespace: string, amount: Usage)
    requires Tidy(l)
    ensures Tidy(AddTo(l, namespace, amount))
  {
    SizeAfterSet(l.perNamespace, namespace, Reading(l, Only(namespace)).Plus(amount));
    SizeAfterDrop(l.perNamespace, namespace);
  }

  lemma SizeAfterSet<K, V>(m: map<K, V>, k: K, v: V)
    ensures |m[k := v]| == |m| + (if k in m then 0 else 1)
  {
    assert m[k := v].Keys == m.Keys + {k};
    if k in m {
      assert m.Keys + {k} == m.Keys;
    }
  }

  lemma SizeAfterDrop<K, V>(m: map<K, V>, k: K)
    ensures |m - {k}| == |m| - (if k in m then 1 else 0)
  {
    assert (m - {k}).Keys == m.Keys - {k};
    if k !in m {
      assert m.Keys - {k} == m.Keys;
    }
  }

  /** Adding an amount to a namespace changes the readings of that namespace and of everything. */
  lemma ReadingAfterAdd(l: Ledger, namespace: string, amount: Usage, scope: Scope)
    ensures Reading(AddTo(l, namespace, amount), scope)
         == Reading(l, scope).Plus(if InScope(namespace, scope) then amount else ZERO)
  {
    match scope
    case Everything =>
    case Only(other) => NamespaceAfterAdd(l, namespace, amount, other);
  }

  lemma NamespaceAfterAdd(l: Ledger, namespace: string, amount: Usage, other: string)
    ensures Reading(AddTo(l, namespace, amount), Only(other))
         == (if other == namespace then Reading(l, Only(other)).Plus(amount) else Reading(l, Only(other)))
  {
    var next := AddTo(l, namespace, amount).perNamespace;
    if other != namespace {
      assert other in next <==> other in l.perNamespace;
    }
  }

  predicate InScope(namespace: string, scope: Scope) {
    scope.Everything? || scope.namespace == namespace
  }

  // ---------------------------------------------------------------- what is charged

  /** One thing that takes up capacity: a stored entry, or an amount an operation has reserved and
      not yet used or freed and not yet given back. */
  datatype Charge = Charge(namespace: string, amount: Usage)

  function AmountIn(c: Charge, scope: Scope): Usage {
    if InScope(c.namespace, scope) then c.amount else ZERO
  }

  ghost function Total<K>(charges: map<K, Charge>, scope: Scope): Usage
    decreases |charges|
  {
    if charges == map[] then ZERO
    else
      var k :| k in charges;
      Smaller(charges, k);
      AmountIn(charges[k], scope).Plus(Total(charges - {k}, scope))
  }

  lemma Smaller<K>(charges: map<K, Charge>, k: K)
    requires k in charges
    ensures |charges - {k}| == |charges| - 1
  {
    assert (charges - {k}).Keys == charges.Keys - {k};
  }

  lemma DropBoth<K, V>(m: map<K, V>, a: K, b: K)
    ensures m - {a} - {b} == m - {b} - {a}
  {
  }

  lemma Swap(a: Usage, b: Usage, c: Usage)
    ensures a.Plus(b.Plus(c)) == b.Plus(a.Plus(c))
  {
  }

  /** A sum does not depend on the order of its parts. */
  lemma {:induction false} TotalWithout<K>(charges: map<K, Charge>, k: K, scope: Scope)
    requires k in charges
    ensures Total(charges, scope) == AmountIn(charges[k], scope).Plus(Total(charges - {k}, scope))
    decreases |charges|
  {
    var first :| first in charges && Total(charges, scope) == AmountIn(charges[first], scope).Plus(Total(charges - {first}, scope));
    if first != k {
      var others, without := charges - {first}, charges - {k};
      Smaller(charges, first);
      Smaller(charges, k);
      assert others[k] == charges[k] && without[first] == charges[first];
      TotalWithout(others, k, scope);
      TotalWithout(without, first, scope);
      DropBoth(charges, first, k);
      var rest := Total(others - {k}, scope);
      Swap(AmountIn(charges[first], scope), AmountIn(charges[k], scope), rest);
    }
  }

  lemma SetThenDrop<K, V>(m: map<K, V>, k: K, v: V)
    ensures m[k := v] - {k} == m - {k}
  {
  }

  lemma TotalAfterDrop<K>(charges: map<K, Charge>, k: K, scope: Scope)
    ensures Total(charges - {k}, scope).Plus(Already(charges, k, scope)) == Total(charges, scope)
  {
    if k in charges {
      TotalWithout(charges, k, scope);
    } else {
      assert charges - {k} == charges;
    }
  }

  /** Setting one charge changes the sum by the difference. */
  lemma TotalAfterSet<K>(charges: map<K, Charge>, k: K, c: Charge, scope: Scope)
    ensures Total(charges[k := c], scope).Plus(Already(charges, k, scope)) == Total(charges, scope).Plus(AmountIn(c, scope))
  {
    SetTotal(charges, charges[k := c], k, scope) by {
      SetThenDrop(charges, k, c);
    }
  }

  function Already<K>(charges: map<K, Charge>, k: K, scope: Scope): Usage {
    if k in charges then AmountIn(charges[k], scope) else ZERO
  }

  lemma SetTotal<K>(charges: map<K, Charge>, changed: map<K, Charge>, k: K, scope: Scope)
    requires k in changed && changed - {k} == charges - {k}
    ensures Total(changed, scope).Plus(Already(charges, k, scope)) == Total(charges, scope).Plus(AmountIn(changed[k], scope))
  {
    TotalWithout(changed, k, scope);
    TotalAfterDrop(charges, k, scope);
    Exchange(Total(changed, scope), AmountIn(changed[k], scope), Total(charges - {k}, scope),
             Already(charges, k, scope), Total(charges, scope));
  }

  lemma Exchange(changed: Usage, part: Usage, rest: Usage, earlier: Usage, total: Usage)
    requires changed == part.Plus(rest) && rest.Plus(earlier) == total
    ensures changed.Plus(earlier) == total.Plus(part)
  {
  }

  /** Charges that are not negative add up to something not negative, and to no less than any one. */
  lemma {:induction false} TotalBounds<K>(charges: map<K, Charge>, k: K, scope: Scope)
    requires forall other | other in charges :: charges[other].amount.bytes >= 0 && charges[other].amount.entries >= 0
    ensures Total(charges, scope).bytes >= 0 && Total(charges, scope).entries >= 0
    ensures k in charges ==> AmountIn(charges[k], scope).Within(Total(charges, scope))
    decreases |charges|
  {
    if charges != map[] {
      var first :| first in charges;
      var one := if k in charges then k else first;
      TotalWithout(charges, one, scope);
      Smaller(charges, one);
      TotalBounds(charges - {one}, one, scope);
    }
  }
}
