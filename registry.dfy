/** Registration of phone numbers (app.py, register): the stored list of
    numbers only grows, by one number at a time, and never holds a number
    twice when it did not before. The JSON file that holds the list is the
    field of a UserStore; the HTTP request's body is reduced to the value of
    its "numero" key. */
module Registry {

  datatype Option<T> = None | Some(value: T)

  /** The reply of the endpoint: HTTP 200 with the number, or HTTP 400. */
  datatype Reply = Registered(registrado: string) | MissingNumber

  /** No number appears twice. */
  predicate Distinct(usuarios: seq<string>)
  {
    forall i, j :: 0 <= i < j < |usuarios| ==> usuarios[i] != usuarios[j]
  }

  /** Python's `not numero` for the value of the "numero" key: the key is
      absent (or null) or the string is empty. */
  predicate Blank(numero: Option<string>)
  {
    numero.None? || numero.value == ""
  }

  /** The stored list after `if numero not in usuarios: usuarios.append(numero)`. */
  function AppendIfAbsent(usuarios: seq<string>, numero: string): (r: seq<string>)
    ensures usuarios <= r
    ensures numero in r
    ensures forall x :: x in r ==> x in usuarios || x == numero
    ensures |r| == if numero in usuarios then |usuarios| else |usuarios| + 1
  {
    if numero in usuarios then usuarios else usuarios + [numero]
  }

  /** One call of the endpoint on the stored list: the new list and the reply. */
  function Registration(usuarios: seq<string>, numero: Option<string>): (r: (seq<string>, Reply))
    ensures numero == None || numero == Some("") ==> r == (usuarios, MissingNumber)
    ensures numero.Some? && numero.value != "" ==> r.1 == Registered(numero.value) && usuarios <= r.0 && numero.value in r.0
  {
    if Blank(numero) then (usuarios, MissingNumber)
    else (AppendIfAbsent(usuarios, numero.value), Registered(numero.value))
  }

  /** The list after the given request values were posted one after
      another: each step is one call of the endpoint. */
  function RegisterAll(usuarios: seq<string>, numeros: seq<Option<string>>): seq<string>
    decreases |numeros|
  {
    if numeros == [] then usuarios
    else RegisterAll(Registration(usuarios, numeros[0]).0, numeros[1..])
  }

  /** Registering a (non-empty) number that is already stored changes
      nothing and is still answered as a success. */
  lemma RegisterPresentIsNoOp(usuarios: seq<string>, numero: string)
    requires numero != "" && numero in usuarios
    ensures Registration(usuarios, Some(numero)) == (usuarios, Registered(numero))
  {
  }

  /** Registering the same number twice is the same as registering it once:
      same list and same reply. */
  lemma RegisterIdempotent(usuarios: seq<string>, numero: Option<string>)
    ensures Registration(Registration(usuarios, numero).0, numero) == Registration(usuarios, numero)
  {
  }

  /** A list without repetitions keeps that property. */
  lemma {:induction false} AppendIfAbsentKeepsDistinct(usuarios: seq<string>, numero: string)
    requires Distinct(usuarios)
    ensures Distinct(AppendIfAbsent(usuarios, numero))
  {
    if numero !in usuarios {
      var r := usuarios + [numero];
      forall i, j | 0 <= i < j < |r| ensures r[i] != r[j] {
        if j == |usuarios| {
          assert r[i] == usuarios[i];
        }
      }
    }
  }

  /** Any sequence of calls keeps the list free of repetitions, keeps what
      was stored in place, and stores exactly the numbers that were there or
      were posted non-empty; blank values add nothing. */
  lemma {:induction false} RegisterAllSound(usuarios: seq<string>, numeros: seq<Option<string>>)
    requires Distinct(usuarios)
    ensures Distinct(RegisterAll(usuarios, numeros))
    ensures usuarios <= RegisterAll(usuarios, numeros)
    ensures forall x :: x in RegisterAll(usuarios, numeros) <==> x in usuarios || (x != "" && Some(x) in numeros)
    decreases |numeros|
  {
    if numeros != [] {
      var next := Registration(usuarios, numeros[0]).0;
      if !Blank(numeros[0]) {
        AppendIfAbsentKeepsDistinct(usuarios, numeros[0].value);
      }
      RegisterAllSound(next, numeros[1..]);
      assert numeros == [numeros[0]] + numeros[1..];
      forall x ensures x in RegisterAll(usuarios, numeros) <==> x in usuarios || (x != "" && Some(x) in numeros) {
        assert Some(x) in numeros <==> Some(x) == numeros[0] || Some(x) in numeros[1..];
      }
    }
  }

  /** Posting one value twice on an empty store leaves one entry, or none
      when the value is blank. */
  lemma TwiceFromEmpty(numero: Option<string>)
    ensures |RegisterAll([], [numero, numero])| == if Blank(numero) then 0 else 1
  {
    assert [numero, numero][1..] == [numero];
    var once := Registration([], numero).0;
    assert once == if Blank(numero) then [] else [numero.value];
    assert RegisterAll([], [numero, numero]) == RegisterAll(once, [numero]);
    assert RegisterAll(once, [numero]) == RegisterAll(Registration(once, numero).0, []);
  }

  /** The store of registered numbers, as the JSON file holds it. */
  class UserStore {
    var usuarios: seq<string>

    /** A store whose file holds `stored` (the empty list when there is no file). */
    constructor (stored: seq<string>)
      ensures usuarios == stored
    {
      usuarios := stored;
    }

    /** The POST /register handler: reject a blank number, otherwise load the
        list, append the number if it is absent and save the list. */
    method Register(numero: Option<string>) returns (reply: Reply)
      modifies this
      ensures (usuarios, reply) == Registration(old(usuarios), numero)
      ensures Distinct(old(usuarios)) ==> Distinct(usuarios)
    {
      if Blank(numero) {
        return MissingNumber;
      }
      var lista := usuarios;
      if numero.value !in lista {
        lista := lista + [numero.value];
        usuarios := lista;
        if Distinct(old(usuarios)) {
          AppendIfAbsentKeepsDistinct(old(usuarios), numero.value);
        }
      }
      reply := Registered(numero.value);
    }
  }
}
