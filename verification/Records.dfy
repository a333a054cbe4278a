/** Self-delimiting records that stand one after the other in a sequence. */
module Records {
  import opened Wrappers

  type Parser<!E, !T> = (seq<E>, nat) -> Option<(T, nat)>

  predicate StandsAt<E(==)>(data: seq<E>, pos: nat, code: seq<E>) {
    pos + |code| <= |data| && data[pos..pos + |code|] == code
  }

  lemma StandsSplit<E>(data: seq<E>, pos: nat, a: seq<E>, b: seq<E>)
    ensures StandsAt(data, pos, a + b) <==> StandsAt(data, pos, a) && StandsAt(data, pos + |a|, b)
  {
    if StandsAt(data, pos, a + b) {
      var all := data[pos..pos + |a + b|];
      assert all[..|a|] == a == data[pos..pos + |a|];
      assert all[|a|..] == b == data[pos + |a|..pos + |a| + |b|];
    }
    if StandsAt(data, pos, a) && StandsAt(data, pos + |a|, b) {
      assert data[pos..pos + |a + b|] == data[pos..pos + |a|] + data[pos + |a|..pos + |a| + |b|];
    }
  }

  ghost predicate ReadsAt<E(!new), T(!new)>(parse: Parser<E, T>, code: T -> seq<E>, ok: T -> bool,
                                            data: seq<E>, pos: nat)
  {
    && (parse(data, pos).Some? ==>
          var (x, next) := parse(data, pos).value;
          ok(x) && StandsAt(data, pos, code(x)) && next == pos + |code(x)|)
    && (forall x :: ok(x) && StandsAt(data, pos, code(x)) ==> parse(data, pos) == Some((x, pos + |code(x)|)))
  }

  // The parser reads a record exactly where its code stands.
  ghost predicate Reads<E(!new), T(!new)>(parse: Parser<E, T>, code: T -> seq<E>, ok: T -> bool) {
    forall data, pos :: ReadsAt(parse, code, ok, data, pos)
  }

  function ParseMany<E, T>(parse: Parser<E, T>, data: seq<E>, pos: nat, n: nat): Option<(seq<T>, nat)>
    decreases n
  {
    if n == 0 then Some(([], pos)) else
    var x := parse(data, pos);
    if x == None then None else
    var rest := ParseMany(parse, data, x.value.1, n - 1);
    if rest == None then None else Some(([x.value.0] + rest.value.0, rest.value.1))
  }

  function Codes<E, T>(code: T -> seq<E>, xs: seq<T>): seq<E> {
    if xs == [] then [] else code(xs[0]) + Codes(code, xs[1..])
  }

  lemma {:induction false} CodesAppend<E, T>(code: T -> seq<E>, xs: seq<T>, x: T)
    ensures Codes(code, xs + [x]) == Codes(code, xs) + code(x)
  {
    var all := xs + [x];
    if xs == [] {
      assert all[1..] == [];
      assert Codes(code, all) == code(x) + [];
    } else {
      assert all[1..] == xs[1..] + [x];
      CodesAppend(code, xs[1..], x);
      assert Codes(code, all) == code(xs[0]) + (Codes(code, xs[1..]) + code(x));
    }
  }

  ghost predicate AllOk<T(!new)>(ok: T -> bool, xs: seq<T>) { forall i :: 0 <= i < |xs| ==> ok(xs[i]) }

  lemma {:induction false} ReadRecordsStand<E(!new), T(!new)>(parse: Parser<E, T>, code: T -> seq<E>, ok: T -> bool,
                                                  data: seq<E>, pos: nat, n: nat)
    requires Reads(parse, code, ok) && pos <= |data| && ParseMany(parse, data, pos, n).Some?
    ensures var (xs, next) := ParseMany(parse, data, pos, n).value;
            |xs| == n && AllOk(ok, xs) && StandsAt(data, pos, Codes(code, xs)) && next == pos + |Codes(code, xs)|
    decreases n
  {
    if n > 0 {
      assert ReadsAt(parse, code, ok, data, pos);
      var (x, after) := parse(data, pos).value;
      ReadRecordsStand(parse, code, ok, data, after, n - 1);
      var rest := ParseMany(parse, data, after, n - 1).value.0;
      StandsSplit(data, pos, code(x), Codes(code, rest));
      assert ([x] + rest)[1..] == rest;
    }
  }

  lemma {:induction false} StandingRecordsAreRead<E(!new), T(!new)>(parse: Parser<E, T>, code: T -> seq<E>, ok: T -> bool,
                                                        data: seq<E>, pos: nat, xs: seq<T>)
    requires Reads(parse, code, ok) && AllOk(ok, xs) && StandsAt(data, pos, Codes(code, xs))
    ensures ParseMany(parse, data, pos, |xs|) == Some((xs, pos + |Codes(code, xs)|))
    decreases |xs|
  {
    if xs != [] {
      var x, rest := xs[0], xs[1..];
      StandsSplit(data, pos, code(x), Codes(code, rest));
      assert ReadsAt(parse, code, ok, data, pos);
      StandingRecordsAreRead(parse, code, ok, data, pos + |code(x)|, rest);
      assert [x] + rest == xs;
    }
  }

  // Records are read exactly where their codes stand, so a sequence has only one reading.
  lemma RecordsStand<E(!new), T(!new)>(parse: Parser<E, T>, code: T -> seq<E>, ok: T -> bool, data: seq<E>, pos: nat, xs: seq<T>, next: nat)
    requires Reads(parse, code, ok) && pos <= |data|
    ensures ParseMany(parse, data, pos, |xs|) == Some((xs, next)) <==>
              AllOk(ok, xs) && StandsAt(data, pos, Codes(code, xs)) && next == pos + |Codes(code, xs)|
  {
    if ParseMany(parse, data, pos, |xs|).Some? { ReadRecordsStand(parse, code, ok, data, pos, |xs|); }
    if AllOk(ok, xs) && StandsAt(data, pos, Codes(code, xs)) { StandingRecordsAreRead(parse, code, ok, data, pos, xs); }
  }
}
