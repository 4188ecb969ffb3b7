/** Shared result types and a sequence filter used by the whole model. */
module Common {

  datatype Option<+T> = None | Some(value: T)

  /** Every way a step of the booking engine or the settings page can stop
      without changing anything. Each one stands for a warning box followed
      by `return`, or for an exception the program does not catch. */
  datatype Error =
    | NoRecord             // the session has no patient / dentist record: silent return
    | UnknownKind          // a treatment kind missing from the catalogue (KeyError)
    | UnknownMaterial      // a material grade missing from the materials table (KeyError)
    | UnknownInsurance     // an insurance class missing from a material's table (KeyError)
    | NoSelection          // a combo box without a current item
    | BadIndex             // an index past the end of a list (IndexError)
    | MalformedWindow      // a stored window that does not parse as "HH:MM-HH:MM" (ValueError)
    | NoDentistAvailable   // no dentist accepts the patient's insurance
    | EmptyName
    | NameTaken
    | EmptySelection
    | InvalidWindow(day: string, von: nat, bis: nat)
    | NoDayChecked
    | EmptyPassword
    | InvalidCount

  datatype Result<+T> = Ok(value: T) | Err(error: Error)

  /** The elements of `s` that satisfy `p`, in their original order,
      duplicates kept. */
  function Filter<T(!new)>(s: seq<T>, p: T -> bool): (r: seq<T>)
    ensures |r| <= |s|
    ensures forall x :: x in r <==> x in s && p(x)
    ensures forall x :: multiset(r)[x] == if p(x) then multiset(s)[x] else 0
  {
    if s == [] then []
    else
      assert s == [s[0]] + s[1..];
      (if p(s[0]) then [s[0]] else []) + Filter(s[1..], p)
  }

  /** Filtering commutes with concatenation: the kept elements of a
      concatenation come block by block, in order. */
  lemma {:induction false} FilterAppend<T(!new)>(a: seq<T>, b: seq<T>, p: T -> bool)
    ensures Filter(a + b, p) == Filter(a, p) + Filter(b, p)
  {
    if a == [] {
      assert a + b == b;
    } else {
      assert (a + b)[0] == a[0];
      assert (a + b)[1..] == a[1..] + b;
      FilterAppend(a[1..], b, p);
    }
  }

  /** A filter that rejects nothing returns its input. */
  lemma {:induction false} FilterKeepsAll<T(!new)>(s: seq<T>, p: T -> bool)
    requires forall x :: x in s ==> p(x)
    ensures Filter(s, p) == s
  {
    if s != [] {
      FilterKeepsAll(s[1..], p);
    }
  }
}
