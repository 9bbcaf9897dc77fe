/**
 * A model of the fuzzy-logic rule base: an ordered container of shared rule
 * handles plus the declared input and output formats (ordered lists of
 * shared linguistic-variable handles), with a flag that silences
 * `removeRule` once teardown of the container has begun.
 *
 * Rule and linguistic-variable handles are opaque identities: the type
 * parameters R and V, compared with `==` as the reference-counted pointers
 * are compared by `std::list::remove`.
 */
module Fuzzy {

  /** The error code the rule base raises for an index outside the rules. */
  const IndexOutOfBoundsCode: int := 7
  const IndexOutOfBoundsMessage: string := "Index of Rules  out of Bounds"

  /** The exception the fuzzy-logic library throws: a numeric code and a message. */
  datatype FuzzyException = FuzzyException(code: int, message: string)

  /** A value, or the exception that was thrown instead of returning one. */
  datatype Result<+T> = Success(value: T) | Failure(error: FuzzyException)

  /** The two phases of a rule base's life: `destructorFlag` false, then true. */
  datatype Phase = Live | TearingDown

  // ---------------------------------------------------------------------
  // std::list::remove: erase every element equal to the given value,
  // keeping the relative order of the others.
  // ---------------------------------------------------------------------

  function RemoveAll<T(==)>(s: seq<T>, x: T): (r: seq<T>)
    ensures |r| <= |s|
    ensures x !in r
    ensures forall i :: 0 <= i < |r| ==> r[i] in s
    ensures forall i :: 0 <= i < |s| && s[i] != x ==> s[i] in r
  {
    if s == [] then []
    else if s[0] == x then RemoveAll(s[1..], x)
    else [s[0]] + RemoveAll(s[1..], x)
  }

  /** Removal distributes over concatenation: the survivors keep their order. */
  lemma {:induction false} RemoveAllAppend<T>(a: seq<T>, b: seq<T>, x: T)
    ensures RemoveAll(a + b, x) == RemoveAll(a, x) + RemoveAll(b, x)
  {
    if a == [] {
      assert a + b == b;
    } else {
      assert (a + b)[0] == a[0];
      assert (a + b)[1..] == a[1..] + b;
      RemoveAllAppend(a[1..], b, x);
    }
  }

  /** Any two surviving entries appear in the result in the order they had in the list. */
  lemma RemoveAllKeepsOrder<T>(s: seq<T>, x: T, i: nat, j: nat)
    requires i < j < |s| && s[i] != x && s[j] != x
    ensures exists p, q :: 0 <= p < q < |RemoveAll(s, x)| && RemoveAll(s, x)[p] == s[i] && RemoveAll(s, x)[q] == s[j]
  {
    var front, back := s[..j], s[j..];
    assert s == front + back;
    RemoveAllAppend(front, back, x);
    assert front[i] == s[i];
    var p :| 0 <= p < |RemoveAll(front, x)| && RemoveAll(front, x)[p] == s[i];
    assert back[0] == s[j] && back[1..] == s[j + 1..];
    assert RemoveAll(back, x) == [s[j]] + RemoveAll(s[j + 1..], x);
    var q := |RemoveAll(front, x)|;
    assert RemoveAll(s, x)[p] == s[i] && RemoveAll(s, x)[q] == s[j];
  }

  /** Exactly the occurrences of `x` disappear; every other element keeps its multiplicity. */
  lemma {:induction false} RemoveAllMultiset<T>(s: seq<T>, x: T)
    ensures multiset(RemoveAll(s, x)) == multiset(s)[x := 0]
  {
    if s != [] {
      RemoveAllMultiset(s[1..], x);
      assert s == [s[0]] + s[1..];
    }
  }

  /** The list shrinks by the number of occurrences of `x`, and only when `x` is present. */
  lemma RemoveAllLength<T>(s: seq<T>, x: T)
    ensures |RemoveAll(s, x)| == |s| - multiset(s)[x]
    ensures x in s <==> |RemoveAll(s, x)| < |s|
  {
    RemoveAllMultiset(s, x);
    assert |multiset(RemoveAll(s, x))| == |multiset(s)| - multiset(s)[x];
  }

  /** Removing an absent value is a silent no-op. */
  lemma {:induction false} RemoveAllAbsent<T>(s: seq<T>, x: T)
    requires x !in s
    ensures RemoveAll(s, x) == s
  {
    if s != [] {
      RemoveAllAbsent(s[1..], x);
      assert s == [s[0]] + s[1..];
    }
  }

  /** Removing a value present exactly once, at index `i`, shifts the later entries down by one. */
  lemma RemoveAllSingle<T>(s: seq<T>, i: nat, x: T)
    requires i < |s| && s[i] == x
    requires x !in s[..i] && x !in s[i + 1..]
    ensures RemoveAll(s, x) == s[..i] + s[i + 1..]
    ensures |RemoveAll(s, x)| == |s| - 1
  {
    assert s == s[..i] + [s[i]] + s[i + 1..];
    RemoveAllAppend(s[..i] + [s[i]], s[i + 1..], x);
    RemoveAllAppend(s[..i], [s[i]], x);
    RemoveAllAbsent(s[..i], x);
    RemoveAllAbsent(s[i + 1..], x);
    assert RemoveAll([s[i]], x) == [];
  }

  /** Removing twice is the same as removing once. */
  lemma {:induction false} RemoveAllIdempotent<T>(s: seq<T>, x: T)
    ensures RemoveAll(RemoveAll(s, x), x) == RemoveAll(s, x)
  {
    RemoveAllAbsent(RemoveAll(s, x), x);
  }

  /** Appending a value not yet present and then removing it restores the list. */
  lemma AppendThenRemove<T>(s: seq<T>, x: T)
    requires x !in s
    ensures RemoveAll(s + [x], x) == s
  {
    RemoveAllAppend(s, [x], x);
    RemoveAllAbsent(s, x);
    assert RemoveAll([x], x) == [];
  }

  // ---------------------------------------------------------------------
  // The text `print` produces: each rule's printed form followed by a
  // newline, in rule order.
  // ---------------------------------------------------------------------

  function Render<R>(rules: seq<R>, printRule: R -> string): string
  {
    if rules == [] then "" else printRule(rules[0]) + "\n" + Render(rules[1..], printRule)
  }

  /** Printing distributes over concatenation of rule lists. */
  lemma {:induction false} RenderAppend<R>(a: seq<R>, b: seq<R>, printRule: R -> string)
    ensures Render(a + b, printRule) == Render(a, printRule) + Render(b, printRule)
  {
    if a == [] {
      assert a + b == b;
    } else {
      assert (a + b)[0] == a[0];
      assert (a + b)[1..] == a[1..] + b;
      RenderAppend(a[1..], b, printRule);
    }
  }

  /** The text is empty exactly when there are no rules; otherwise it ends with a newline. */
  lemma {:induction false} RenderEmpty<R>(rules: seq<R>, printRule: R -> string)
    ensures Render(rules, printRule) == "" <==> rules == []
    ensures rules != [] ==> Render(rules, printRule)[|Render(rules, printRule)| - 1] == '\n'
  {
    if rules != [] {
      var last := rules[|rules| - 1];
      assert rules == rules[..|rules| - 1] + [last];
      RenderAppend(rules[..|rules| - 1], [last], printRule);
      assert Render([last], printRule) == printRule(last) + "\n";
    }
  }

  /** Two rules print as the first line, a newline, the second line, a newline. */
  lemma RenderTwo<R>(r1: R, r2: R, printRule: R -> string)
    ensures Render([r1, r2], printRule) == printRule(r1) + "\n" + printRule(r2) + "\n"
  {
    assert [r1, r2][1..] == [r2];
    assert Render([r2], printRule) == printRule(r2) + "\n" by {
      assert [r2][1..] == [];
    }
  }

  /** Adding a rule appends exactly its line to the printed text. */
  lemma RenderAfterAdd<R>(rules: seq<R>, r: R, printRule: R -> string)
    ensures Render(rules + [r], printRule) == Render(rules, printRule) + printRule(r) + "\n"
  {
    RenderAppend(rules, [r], printRule);
    assert [r][1..] == [];
  }

  // ---------------------------------------------------------------------
  // The rule base itself.
  // ---------------------------------------------------------------------

  class RuleBase<R(==), V(==)> {
    var rules: seq<R>
    var inputFormat: seq<V>
    var outputFormat: seq<V>
    /** Set by the destructor; from then on `RemoveRule` does nothing. */
    var destructorFlag: bool

    /** Live until the destructor has run, TearingDown from then on. */
    function Phase(): Phase
      reads this
    {
      if destructorFlag then TearingDown else Live
    }

    /** The size of `rules`, the bound `GetRule` checks indices against. */
    function NumberOfRules(): (n: nat)
      reads this
      ensures n == |rules|
    {
      |rules|
    }

    constructor ()
      ensures Phase() == Live
      ensures rules == [] && inputFormat == [] && outputFormat == []
    {
      rules, inputFormat, outputFormat := [], [], [];
      destructorFlag := false;
    }

    /** The destructor body: enter the teardown phase, which is never left. */
    method Destroy()
      modifies this
      ensures Phase() == TearingDown
      ensures rules == old(rules) && inputFormat == old(inputFormat) && outputFormat == old(outputFormat)
    {
      destructorFlag := true;
    }

    method AddRule(r: R)
      modifies this
      ensures rules == old(rules) + [r]
      ensures |rules| == |old(rules)| + 1 && rules[..|old(rules)|] == old(rules)
      ensures inputFormat == old(inputFormat) && outputFormat == old(outputFormat)
      ensures destructorFlag == old(destructorFlag)
    {
      rules := rules + [r];
    }

    /** While live, erase every handle equal to `r`; once tearing down, do nothing at all. */
    method RemoveRule(r: R)
      modifies this
      ensures !old(destructorFlag) ==> rules == RemoveAll(old(rules), r)
      ensures old(destructorFlag) ==> rules == old(rules)
      ensures r !in old(rules) ==> rules == old(rules)
      ensures inputFormat == old(inputFormat) && outputFormat == old(outputFormat)
      ensures destructorFlag == old(destructorFlag)
    {
      if !destructorFlag {
        rules := RemoveAll(rules, r);
        if r !in old(rules) {
          RemoveAllAbsent(old(rules), r);
        }
      }
    }

    /**
     * The rule at position `whichOne` in insertion order, reached by
     * stepping a list iterator forward `whichOne` times; an index outside
     * the rules throws exception 7.
     */
    method GetRule(whichOne: int) returns (result: Result<R>)
      ensures result.Failure? <==> whichOne < 0 || whichOne >= |rules|
      ensures result.Failure? ==> result.error == FuzzyException(IndexOutOfBoundsCode, IndexOutOfBoundsMessage)
      ensures result.Success? ==> 0 <= whichOne < |rules| && result.value == rules[whichOne]
    {
      if whichOne < 0 || whichOne >= NumberOfRules() {
        return Failure(FuzzyException(IndexOutOfBoundsCode, IndexOutOfBoundsMessage));
      } else {
        var it := rules;
        var i := 0;
        while i < whichOne
          invariant 0 <= i <= whichOne
          invariant it == rules[i..]
        {
          it := it[1..];
          i := i + 1;
        }
        return Success(it[0]);
      }
    }

    method AddToInputFormat(l: V)
      modifies this
      ensures inputFormat == old(inputFormat) + [l]
      ensures rules == old(rules) && outputFormat == old(outputFormat)
      ensures destructorFlag == old(destructorFlag)
    {
      inputFormat := inputFormat + [l];
    }

    method AddToOutputFormat(l: V)
      modifies this
      ensures outputFormat == old(outputFormat) + [l]
      ensures rules == old(rules) && inputFormat == old(inputFormat)
      ensures destructorFlag == old(destructorFlag)
    {
      outputFormat := outputFormat + [l];
    }

    /** Erase every entry equal to `l` from the input format, whatever the phase. */
    method RemoveFromInputFormat(l: V)
      modifies this
      ensures inputFormat == RemoveAll(old(inputFormat), l)
      ensures l !in old(inputFormat) ==> inputFormat == old(inputFormat)
      ensures rules == old(rules) && outputFormat == old(outputFormat)
      ensures destructorFlag == old(destructorFlag)
    {
      inputFormat := RemoveAll(inputFormat, l);
      if l !in old(inputFormat) {
        RemoveAllAbsent(old(inputFormat), l);
      }
    }

    /** Replace the input format by a copy of `iT`, discarding the previous entries. */
    method SetInputFormat(iT: seq<V>)
      modifies this
      ensures inputFormat == iT
      ensures rules == old(rules) && outputFormat == old(outputFormat)
      ensures destructorFlag == old(destructorFlag)
    {
      inputFormat := iT;
    }

    /** The text of all rules, one per line, in rule order; reads the rule base only. */
    method Print(printRule: R -> string) returns (out: string)
      ensures out == Render(rules, printRule)
      ensures out == "" <==> rules == []
    {
      out := "";
      if |rules| > 0 {
        var it := rules;
        while it != []
          invariant out + Render(it, printRule) == Render(rules, printRule)
        {
          out := out + printRule(it[0]) + "\n";
          it := it[1..];
        }
      }
      RenderEmpty(rules, printRule);
    }

    method AddToInputFormat2(eins: V, zwei: V)
      modifies this
      ensures inputFormat == old(inputFormat) + [eins, zwei]
      ensures rules == old(rules) && outputFormat == old(outputFormat)
      ensures destructorFlag == old(destructorFlag)
    {
      AddToInputFormat(eins);
      AddToInputFormat(zwei);
    }

    method AddToInputFormat3(eins: V, zwei: V, drei: V)
      modifies this
      ensures inputFormat == old(inputFormat) + [eins, zwei, drei]
      ensures rules == old(rules) && outputFormat == old(outputFormat)
      ensures destructorFlag == old(destructorFlag)
    {
      AddToInputFormat(eins);
      AddToInputFormat(zwei);
      AddToInputFormat(drei);
    }

    method AddToInputFormat4(eins: V, zwei: V, drei: V, vier: V)
      modifies this
      ensures inputFormat == old(inputFormat) + [eins, zwei, drei, vier]
      ensures rules == old(rules) && outputFormat == old(outputFormat)
      ensures destructorFlag == old(destructorFlag)
    {
      AddToInputFormat(eins);
      AddToInputFormat(zwei);
      AddToInputFormat(drei);
      AddToInputFormat(vier);
    }

    method AddToOutputFormat2(eins: V, zwei: V)
      modifies this
      ensures outputFormat == old(outputFormat) + [eins, zwei]
      ensures rules == old(rules) && inputFormat == old(inputFormat)
      ensures destructorFlag == old(destructorFlag)
    {
      AddToOutputFormat(eins);
      AddToOutputFormat(zwei);
    }

    /**
     * Destruction with its cascade: the destructor body sets the flag, then
     * releasing the held handles tears down rules whose own teardown calls
     * `RemoveRule` back on this rule base, once per entry of `callbacks`.
     * None of those calls changes the list being released.
     */
    method Teardown(callbacks: seq<R>)
      modifies this
      ensures Phase() == TearingDown
      ensures rules == old(rules) && inputFormat == old(inputFormat) && outputFormat == old(outputFormat)
    {
      Destroy();
      for k := 0 to |callbacks|
        invariant destructorFlag
        invariant rules == old(rules) && inputFormat == old(inputFormat) && outputFormat == old(outputFormat)
      {
        RemoveRule(callbacks[k]);
      }
    }
  }

  /**
   * Clients of the rule base: what callers can conclude from the contracts
   * alone about indexed lookup, removal, printing, the formats and teardown.
   */
  method LookupScenario()
  {
    var rb := new RuleBase<nat, nat>();
    rb.AddRule(10);
    rb.AddRule(20);
    var first := rb.GetRule(0);
    var second := rb.GetRule(1);
    assert first == Success(10) && second == Success(20);
    var below := rb.GetRule(-1);
    var above := rb.GetRule(2);
    assert below.Failure? && below.error.code == 7;
    assert above.Failure? && above.error.code == 7;
  }

  method RemovalScenario(printRule: nat -> string)
  {
    var rb := new RuleBase<nat, nat>();
    rb.AddRule(10);
    rb.AddRule(20);
    rb.AddRule(10);
    assert rb.rules == [10, 20, 10];
    rb.RemoveRule(10);
    assert rb.rules == [20] by {
      assert [10, 20, 10][1..] == [20, 10] && [20, 10][1..] == [10] && [10][1..] == [];
      assert RemoveAll([10], 10) == [];
      assert RemoveAll([20, 10], 10) == [20];
    }
    rb.RemoveRule(30);
    assert rb.rules == [20];
    var text := rb.Print(printRule);
    RenderAfterAdd<nat>([], 20, printRule);
    assert text == printRule(20) + "\n";
  }

  method FormatScenario()
  {
    var rb := new RuleBase<nat, nat>();
    rb.AddToInputFormat3(1, 2, 3);
    assert rb.inputFormat == [1, 2, 3];
    rb.RemoveFromInputFormat(2);
    assert rb.inputFormat == [1, 3] by {
      assert [1, 2, 3][1..] == [2, 3] && [2, 3][1..] == [3] && [3][1..] == [];
      assert RemoveAll([3], 2) == [3];
      assert RemoveAll([2, 3], 2) == [3];
    }
    rb.SetInputFormat([4, 5]);
    rb.AddToOutputFormat2(6, 7);
    assert rb.inputFormat == [4, 5] && rb.outputFormat == [6, 7] && rb.rules == [];
  }

  method TeardownScenario()
  {
    var rb := new RuleBase<nat, nat>();
    rb.AddRule(20);
    rb.AddRule(30);
    rb.Teardown([20, 30]);
    assert rb.rules == [20, 30];
  }
}
