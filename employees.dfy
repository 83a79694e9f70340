/** The employee routes: `POST /add` creates an employee with a fresh
    six-character connect code, and `GET /` lists employees by name. */
module Employees {
  import opened Common
  import opened Models
  import Db

  /** The characters a connect code is drawn from. */
  const Alphabet: string := "ABCDEFGHIJKLMNOPQRSTUVWXYZ0123456789"

  /** Every character of the alphabet is an upper-case letter or a digit. */
  lemma {:induction false} AlphabetIsUpperAndDigits(i: nat)
    requires i < |Alphabet|
    ensures 'A' <= Alphabet[i] <= 'Z' || IsDigit(Alphabet[i])
  {
    if i < 26 {
      assert Alphabet[i] == ('A' as int + i) as char;
    } else {
      assert Alphabet[i] == ('0' as int + i - 26) as char;
    }
  }

  /** Values returned by `Math.random()`: each in [0, 1). */
  predicate IsDraws(random: seq<real>) {
    forall i :: 0 <= i < |random| ==> 0.0 <= random[i] < 1.0
  }

  /** `Math.floor(Math.random() * chars.length)` for one draw `r`. */
  function DrawIndex(r: real): (i: int)
    requires 0.0 <= r < 1.0
    ensures 0 <= i < |Alphabet|
  {
    (r * (|Alphabet| as real)).Floor
  }

  /** `s.charAt(i)`: one character, or "" when `i` is out of range. */
  function CharAt(s: string, i: int): (r: string)
    ensures |r| <= 1
    ensures |r| == 1 <==> 0 <= i < |s|
    ensures |r| == 1 ==> r[0] == s[i]
  {
    if 0 <= i < |s| then [s[i]] else ""
  }

  /** The code the first `n` draws spell. */
  function CodeOf(random: seq<real>, n: nat): (code: string)
    requires IsDraws(random) && n <= |random|
    ensures |code| == n
    ensures forall i :: 0 <= i < n ==> code[i] in Alphabet
    ensures forall i :: 0 <= i < n ==> ('A' <= code[i] <= 'Z' || IsDigit(code[i])) && !IsLower(code[i])
  {
    var code := seq(n, i requires 0 <= i < n => Alphabet[DrawIndex(random[i])]);
    forall i | 0 <= i < n ensures 'A' <= code[i] <= 'Z' || IsDigit(code[i]) {
      AlphabetIsUpperAndDigits(DrawIndex(random[i]));
    }
    code
  }

  /** `generateConnectCode(length)`: one alphabet character per loop turn,
      each chosen by one draw of `Math.random()`. A length of 0 or less gives
      the empty code. */
  method GenerateConnectCode(random: seq<real>, length: int := 6) returns (code: string)
    requires IsDraws(random) && length <= |random|
    ensures |code| == if length > 0 then length else 0
    ensures code == CodeOf(random, |code|)
    ensures forall i :: 0 <= i < |code| ==> code[i] in Alphabet && !IsLower(code[i])
  {
    code := "";
    var i := 0;
    while i < length
      invariant 0 <= i <= |random|
      invariant if length > 0 then i <= length else i == 0
      invariant |code| == i
      invariant forall k :: 0 <= k < i ==> code[k] == Alphabet[DrawIndex(random[k])]
    {
      code := code + CharAt(Alphabet, DrawIndex(random[i]));
      i := i + 1;
    }
    assert code == CodeOf(random, i);
  }

  /** The reply of `POST /add`. */
  datatype AddResponse = Created(employee: Employee) | CreateFailed {
    function Status(): int { if Created? then 200 else 500 }
  }

  /** Saving a new employee with connect code `code`: the unique index on
      `connectCode` makes the save fail when the code is taken. */
  function Addition(docs: seq<Employee>, name: string, phone: string, code: string): (r: (seq<Employee>, AddResponse))
    ensures r.1.CreateFailed? <==> exists i :: 0 <= i < |docs| && docs[i].connectCode == code
    ensures r.1.CreateFailed? ==> r.0 == docs
    ensures r.1.Created? ==> r.0 == docs + [r.1.employee]
    ensures r.1.Created? ==> r.1.employee == Employee(name, phone, code, None)
  {
    if exists i :: 0 <= i < |docs| && docs[i].connectCode == code then (docs, CreateFailed)
    else
      var e := Employee(name, phone, code, None);
      (docs + [e], Created(e))
  }

  /** A drawn index is always inside the alphabet, so `charAt` never
      contributes an empty string. */
  lemma DrawnCharacterIsOne(r: real)
    requires 0.0 <= r < 1.0
    ensures CharAt(Alphabet, DrawIndex(r)) == [Alphabet[DrawIndex(r)]]
  {
  }

  /** Adding an employee keeps connect codes unique. */
  lemma AdditionKeepsCodesUnique(docs: seq<Employee>, name: string, phone: string, code: string)
    requires CodesUnique(docs)
    ensures CodesUnique(Addition(docs, name, phone, code).0)
  {
  }

  /** `POST /add`: generates a six-character code and saves the employee. */
  method Add(store: Db.Collection<Employee>, name: string, phone: string, random: seq<real>) returns (resp: AddResponse)
    requires IsDraws(random) && 6 <= |random|
    modifies store
    ensures (store.docs, resp) == Addition(old(store.docs), name, phone, CodeOf(random, 6))
  {
    var connectCode := GenerateConnectCode(random);
    var taken := exists i :: 0 <= i < |store.docs| && store.docs[i].connectCode == connectCode;
    if taken {
      return CreateFailed;
    }
    var employee := Employee(name, phone, connectCode, None);
    store.Insert(employee);
    resp := Created(employee);
  }

  // ---------------------------------------------------------------------
  // GET /: employees sorted by name

  /** MongoDB's ascending order on strings: lexicographic by character. */
  predicate NameLe(a: string, b: string)
    decreases |a|
  {
    a == [] || (b != [] && (a[0] < b[0] || (a[0] == b[0] && NameLe(a[1..], b[1..]))))
  }

  lemma {:induction false} NameLeTotal(a: string, b: string)
    ensures NameLe(a, b) || NameLe(b, a)
    decreases |a|
  {
    if a != [] && b != [] && a[0] == b[0] {
      NameLeTotal(a[1..], b[1..]);
    }
  }

  lemma {:induction false} NameLeTransitive(a: string, b: string, c: string)
    requires NameLe(a, b) && NameLe(b, c)
    ensures NameLe(a, c)
    decreases |a|
  {
    if a != [] && b != [] && c != [] && a[0] == b[0] == c[0] {
      NameLeTransitive(a[1..], b[1..], c[1..]);
    }
  }

  /** Each employee's name is at most the next one's. */
  predicate SortedByName(s: seq<Employee>) {
    forall i :: 0 <= i < |s| - 1 ==> NameLe(s[i].name, s[i + 1].name)
  }

  /** In a name-sorted sequence every name is at most every later name. */
  lemma {:induction false} SortedByNamePairwise(s: seq<Employee>, i: nat, j: nat)
    requires SortedByName(s) && i <= j < |s|
    ensures NameLe(s[i].name, s[j].name)
    decreases j - i
  {
    if i == j {
      NameLeReflexive(s[i].name);
    } else {
      SortedByNamePairwise(s, i + 1, j);
      NameLeTransitive(s[i].name, s[i + 1].name, s[j].name);
    }
  }

  lemma {:induction false} NameLeReflexive(a: string)
    ensures NameLe(a, a)
    decreases |a|
  {
    if a != [] {
      NameLeReflexive(a[1..]);
    }
  }

  function InsertByName(e: Employee, s: seq<Employee>): (r: seq<Employee>)
    requires SortedByName(s)
    ensures SortedByName(r)
    ensures multiset(r) == multiset(s) + multiset{e}
    ensures |r| == |s| + 1 && (r[0] == e || (s != [] && r[0] == s[0]))
    decreases |s|
  {
    if s == [] || NameLe(e.name, s[0].name) then [e] + s
    else
      NameLeTotal(e.name, s[0].name);
      assert s == [s[0]] + s[1..];
      [s[0]] + InsertByName(e, s[1..])
  }

  /** `Employee.find().sort({ name: 1 })`: every stored employee, by name. */
  function ListByName(docs: seq<Employee>): (r: seq<Employee>)
    ensures SortedByName(r)
    ensures multiset(r) == multiset(docs)
    decreases |docs|
  {
    if docs == [] then []
    else
      assert docs == [docs[0]] + docs[1..];
      InsertByName(docs[0], ListByName(docs[1..]))
  }
}
