/**
 * The predicate keywords of derived queries, in the order they are tried.
 * No keyword ends with one tried before it, so the first that matches is the
 * longest that does.
 */
module Keywords {
  datatype Operator =
    | Eq | Neq | Gt | Gte | Lt | Lte | Containing | NotContaining | StartingWith | EndingWith | IsEmpty | IsNotEmpty
    | IsNull | IsNotNull | In | NotIn | Like | NotLike | Between | IsTrue | IsFalse

  datatype Keyword = Keyword(suffix: string, operator: Operator, argCount: nat)

  const COUNT := 50
  function KeywordAt(i: nat): Keyword
    requires i < COUNT
  {
    match i
    case 0 => Keyword("IsGreaterThanEqual", Gte, 1)
    case 1 => Keyword("GreaterThanEqual", Gte, 1)
    case 2 => Keyword("IsLessThanEqual", Lte, 1)
    case 3 => Keyword("LessThanEqual", Lte, 1)
    case 4 => Keyword("IsGreaterThan", Gt, 1)
    case 5 => Keyword("GreaterThan", Gt, 1)
    case 6 => Keyword("IsLessThan", Lt, 1)
    case 7 => Keyword("LessThan", Lt, 1)
    case 8 => Keyword("IsNotContaining", NotContaining, 1)
    case 9 => Keyword("NotContaining", NotContaining, 1)
    case 10 => Keyword("NotContains", NotContaining, 1)
    case 11 => Keyword("IsContaining", Containing, 1)
    case 12 => Keyword("Containing", Containing, 1)
    case 13 => Keyword("Contains", Containing, 1)
    case 14 => Keyword("IsStartingWith", StartingWith, 1)
    case 15 => Keyword("StartingWith", StartingWith, 1)
    case 16 => Keyword("StartsWith", StartingWith, 1)
    case 17 => Keyword("IsEndingWith", EndingWith, 1)
    case 18 => Keyword("EndingWith", EndingWith, 1)
    case 19 => Keyword("EndsWith", EndingWith, 1)
    case 20 => Keyword("IsNotEmpty", IsNotEmpty, 0)
    case 21 => Keyword("NotEmpty", IsNotEmpty, 0)
    case 22 => Keyword("IsEmpty", IsEmpty, 0)
    case 23 => Keyword("Empty", IsEmpty, 0)
    case 24 => Keyword("IsNotNull", IsNotNull, 0)
    case 25 => Keyword("NotNull", IsNotNull, 0)
    case 26 => Keyword("IsNull", IsNull, 0)
    case 27 => Keyword("Null", IsNull, 0)
    case 28 => Keyword("IsNotIn", NotIn, 1)
    case 29 => Keyword("NotIn", NotIn, 1)
    case 30 => Keyword("IsIn", In, 1)
    case 31 => Keyword("In", In, 1)
    case 32 => Keyword("IsNotLike", NotLike, 1)
    case 33 => Keyword("NotLike", NotLike, 1)
    case 34 => Keyword("IsLike", Like, 1)
    case 35 => Keyword("Like", Like, 1)
    case 36 => Keyword("IsBetween", Between, 2)
    case 37 => Keyword("Between", Between, 2)
    case 38 => Keyword("IsAfter", Gt, 1)
    case 39 => Keyword("After", Gt, 1)
    case 40 => Keyword("IsBefore", Lt, 1)
    case 41 => Keyword("Before", Lt, 1)
    case 42 => Keyword("IsFalse", IsFalse, 0)
    case 43 => Keyword("False", IsFalse, 0)
    case 44 => Keyword("IsTrue", IsTrue, 0)
    case 45 => Keyword("True", IsTrue, 0)
    case 46 => Keyword("IsNot", Neq, 1)
    case 47 => Keyword("Not", Neq, 1)
    case 48 => Keyword("Equals", Eq, 1)
    case _ => Keyword("Is", Eq, 1)
  }

  /** The spellings of each operator. */
  function Spellings(op: Operator): set<string> {
    match op
    case Eq => {"Is", "Equals"}
    case Neq => {"Not", "IsNot"}
    case Gt => {"GreaterThan", "IsGreaterThan", "After", "IsAfter"}
    case Gte => {"GreaterThanEqual", "IsGreaterThanEqual"}
    case Lt => {"LessThan", "IsLessThan", "Before", "IsBefore"}
    case Lte => {"LessThanEqual", "IsLessThanEqual"}
    case Containing => {"Containing", "IsContaining", "Contains"}
    case NotContaining => {"NotContaining", "IsNotContaining", "NotContains"}
    case StartingWith => {"StartingWith", "IsStartingWith", "StartsWith"}
    case EndingWith => {"EndingWith", "IsEndingWith", "EndsWith"}
    case IsEmpty => {"Empty", "IsEmpty"}
    case IsNotEmpty => {"NotEmpty", "IsNotEmpty"}
    case IsNull => {"Null", "IsNull"}
    case IsNotNull => {"NotNull", "IsNotNull"}
    case In => {"In", "IsIn"}
    case NotIn => {"NotIn", "IsNotIn"}
    case Like => {"Like", "IsLike"}
    case NotLike => {"NotLike", "IsNotLike"}
    case Between => {"Between", "IsBetween"}
    case IsTrue => {"True", "IsTrue"}
    case IsFalse => {"False", "IsFalse"}
  }

  /** How many values each operator is compared with. */
  function Arity(op: Operator): nat {
    match op
    case Between => 2
    case IsEmpty => 0
    case IsNotEmpty => 0
    case IsNull => 0
    case IsNotNull => 0
    case IsTrue => 0
    case IsFalse => 0
    case _ => 1
  }

  predicate SpelledAt(i: nat)
    requires i < COUNT
  {
    var k := KeywordAt(i);
    k.suffix in Spellings(k.operator) && k.argCount == Arity(k.operator)
  }

  lemma SpelledA(i: nat) requires i < 12 ensures SpelledAt(i) {}

  lemma SpelledB(i: nat) requires 12 <= i < 24 ensures SpelledAt(i) {}

  lemma SpelledC(i: nat) requires 24 <= i < 36 ensures SpelledAt(i) {}

  lemma SpelledD(i: nat) requires 36 <= i < COUNT ensures SpelledAt(i) {}

  /** Every keyword is a spelling of its operator and takes that operator's values. */
  lemma Spelled(i: nat)
    requires i < COUNT
    ensures Suffix(i) in Spellings(KeywordAt(i).operator) && KeywordAt(i).argCount == Arity(KeywordAt(i).operator)
  {
    hide KeywordAt, Spellings, Arity;
    if i < 12 {
      SpelledA(i);
    } else if i < 24 {
      SpelledB(i);
    } else if i < 36 {
      SpelledC(i);
    } else {
      SpelledD(i);
    }
  }

  function Suffix(i: nat): string
    requires i < COUNT
  {
    KeywordAt(i).suffix
  }

  predicate EndsWith(s: string, p: string) { |p| <= |s| && s[|s| - |p|..] == p }

  /** A keyword with something before it. */
  predicate ProperSuffix(s: string, i: nat)
    requires i < COUNT
  {
    EndsWith(s, Suffix(i)) && |s| > |Suffix(i)|
  }

  /** The last two letters of a keyword: keywords with equal ones stand near each other. */
  function Tail(i: nat): (char, char) {
    if i < 4 then ('a', 'l')
    else if i < 8 then ('a', 'n')
    else if i < 10 then ('n', 'g')
    else if i < 11 then ('n', 's')
    else if i < 13 then ('n', 'g')
    else if i < 14 then ('n', 's')
    else if i < 20 then ('t', 'h')
    else if i < 24 then ('t', 'y')
    else if i < 28 then ('l', 'l')
    else if i < 32 then ('I', 'n')
    else if i < 36 then ('k', 'e')
    else if i < 38 then ('e', 'n')
    else if i < 40 then ('e', 'r')
    else if i < 42 then ('r', 'e')
    else if i < 44 then ('s', 'e')
    else if i < 46 then ('u', 'e')
    else if i < 48 then ('o', 't')
    else if i < 49 then ('l', 's')
    else ('I', 's')
  }

  predicate TailOf(i: nat)
    requires i < COUNT
  {
    var s := Suffix(i);
    |s| >= 2 && (s[|s| - 2], s[|s| - 1]) == Tail(i)
  }

  lemma Tails(i: nat)
    requires i < COUNT
    ensures TailOf(i)
  {
    if i < 10 {
      TailsA(i);
    } else if i < 20 {
      TailsB(i);
    } else if i < 30 {
      TailsC(i);
    } else if i < 40 {
      TailsD(i);
    } else {
      TailsE(i);
    }
  }

  lemma TailsA(i: nat) requires i < 10 ensures TailOf(i) {}

  lemma TailsB(i: nat) requires 10 <= i < 20 ensures TailOf(i) {}

  lemma TailsC(i: nat) requires 20 <= i < 30 ensures TailOf(i) {}

  lemma TailsD(i: nat) requires 30 <= i < 40 ensures TailOf(i) {}

  lemma TailsE(i: nat) requires 40 <= i < COUNT ensures TailOf(i) {}

  lemma SameA(i: nat, j: nat) requires i < j < 14 && Tail(i) == Tail(j) ensures !EndsWith(Suffix(j), Suffix(i)) {}

  lemma SameB(i: nat, j: nat) requires 14 <= i < j < 20 ensures !EndsWith(Suffix(j), Suffix(i)) {}

  lemma SameC(i: nat, j: nat) requires 20 <= i < j < 24 ensures !EndsWith(Suffix(j), Suffix(i)) {}

  lemma SameD(i: nat, j: nat) requires 24 <= i < j < 28 ensures !EndsWith(Suffix(j), Suffix(i)) {}

  lemma SameE(i: nat, j: nat) requires 28 <= i < j < 32 ensures !EndsWith(Suffix(j), Suffix(i)) {}

  lemma SameF(i: nat, j: nat) requires 32 <= i < j < 36 ensures !EndsWith(Suffix(j), Suffix(i)) {}

  lemma SameG(i: nat, j: nat)
    requires 36 <= i < j < COUNT && Tail(i) == Tail(j)
    ensures !EndsWith(Suffix(j), Suffix(i))
  {
  }

  lemma Near(i: nat, j: nat)
    requires i < j < COUNT && Tail(i) == Tail(j)
    ensures j < 14 || (14 <= i && j < 20) || (20 <= i && i / 4 == j / 4) || 36 <= i
  {
  }

  lemma LaterNotLonger(i: nat, j: nat)
    requires i < j < COUNT
    ensures !EndsWith(Suffix(j), Suffix(i))
  {
    Tails(i);
    Tails(j);
    hide Suffix, KeywordAt, Tail, EndsWith;
    if Tail(i) == Tail(j) {
      Near(i, j);
      if j < 14 {
        SameA(i, j);
      } else if j < 20 {
        SameB(i, j);
      } else if j < 24 {
        SameC(i, j);
      } else if j < 28 {
        SameD(i, j);
      } else if j < 32 {
        SameE(i, j);
      } else if j < 36 {
        SameF(i, j);
      } else {
        SameG(i, j);
      }
    }
    EndsAlike(Suffix(j), Suffix(i));
  }

  lemma EndsAlike(s: string, p: string)
    requires |s| >= 2 && |p| >= 2
    ensures EndsWith(s, p) ==> s[|s| - 2] == p[|p| - 2] && s[|s| - 1] == p[|p| - 1]
  {
    if EndsWith(s, p) {
      assert s[|s| - |p|..][|p| - 1] == s[|s| - 1] && s[|s| - |p|..][|p| - 2] == s[|s| - 2];
    }
  }

  /** The first keyword, from the `from`th on, that is a proper suffix. */
  function FirstMatch(s: string, from: nat): (k: int)
    requires from <= COUNT
    ensures k == -1 || from <= k < COUNT
    decreases COUNT - from
  {
    if from == COUNT then -1 else if ProperSuffix(s, from) then from else FirstMatch(s, from + 1)
  }

  lemma {:induction false} FirstMatchIs(s: string, from: nat)
    requires from <= COUNT
    ensures var k := FirstMatch(s, from);
      && (k == -1 <==> forall i :: from <= i < COUNT ==> !ProperSuffix(s, i))
      && (k >= 0 ==> ProperSuffix(s, k) && forall i :: from <= i < k ==> !ProperSuffix(s, i))
    decreases COUNT - from
  {
    hide ProperSuffix;
    if from < COUNT && !ProperSuffix(s, from) {
      FirstMatchIs(s, from + 1);
    }
  }

  /** Two suffixes of one string: the shorter is a suffix of the longer. */
  lemma SuffixesNest(s: string, p: string, q: string)
    requires EndsWith(s, p) && EndsWith(s, q) && |p| <= |q|
    ensures EndsWith(q, p)
  {
    assert s[|s| - |q|..][|q| - |p|..] == s[|s| - |p|..];
  }

  /** `k` is the keyword found exactly when it is a proper suffix and every other one that is, is shorter. */
  lemma FirstIsLongest(s: string, k: nat)
    requires k < COUNT
    ensures FirstMatch(s, 0) == k <==>
      ProperSuffix(s, k) && forall i :: 0 <= i < COUNT && i != k && ProperSuffix(s, i) ==> |Suffix(i)| < |Suffix(k)|
  {
    FirstMatchIs(s, 0);
    var m := FirstMatch(s, 0);
    forall i, j | 0 <= i < j < COUNT && ProperSuffix(s, i) && ProperSuffix(s, j) ensures |Suffix(j)| < |Suffix(i)| {
      if |Suffix(i)| <= |Suffix(j)| {
        SuffixesNest(s, Suffix(i), Suffix(j));
        LaterNotLonger(i, j);
      }
    }
    hide Suffix, ProperSuffix;
  }
}
