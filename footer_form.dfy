/** The contact form of the site footer (`src/footer/contact-form.tsx`): a
    component whose state is the `{ name, email, message }` record, and the
    `application/x-www-form-urlencoded` body that its submit handler posts.
    `ParseBody` reads such a body back, and `ParseEncode` proves that it
    recovers every record `Encode` was given. */
module FooterContactForm {
  import opened Text
  import opened Results
  import opened Fields
  import opened UriComponent

  /** A key and its value, in the order `Object.keys` lists them. */
  type Record = seq<(string, string)>

  /** `encodeURIComponent(key) + "=" + encodeURIComponent(value)`. */
  function Pair(key: string, value: string): string {
    EncodeURIComponent(key) + "=" + EncodeURIComponent(value)
  }

  function Pairs(rec: Record): (r: seq<string>)
    ensures |r| == |rec|
    ensures forall k :: 0 <= k < |rec| ==> r[k] == Pair(rec[k].0, rec[k].1)
  {
    if rec == [] then [] else [Pair(rec[0].0, rec[0].1)] + Pairs(rec[1..])
  }

  /** `encode(data)`: the encoded pairs joined with `&`. */
  function Encode(rec: Record): string {
    Join(Pairs(rec), '&')
  }

  /** One `key=value` piece of a body, decoded; `None` when the piece does
      not hold exactly one `=` or an escape in it is malformed. */
  function ParsePair(piece: string): Option<(string, string)> {
    var kv := Split(piece, '=');
    if |kv| != 2 then None
    else match (DecodeURIComponent(kv[0]), DecodeURIComponent(kv[1]))
      case (Some(k), Some(v)) => Some((k, v))
      case _ => None
  }

  function ParsePairs(pieces: seq<string>): Option<Record> {
    if pieces == [] then Some([])
    else match (ParsePair(pieces[0]), ParsePairs(pieces[1..]))
      case (Some(p), Some(ps)) => Some([p] + ps)
      case _ => None
  }

  /** The reading of a form body a receiving server performs: the empty body
      is the empty record, any other body is split at `&` into pairs. */
  function ParseBody(body: string): Option<Record> {
    if body == [] then Some([]) else ParsePairs(Split(body, '&'))
  }

  /** A pair holds exactly one `=`, between the encoded key and the encoded
      value. */
  lemma PairSplits(key: string, value: string)
    ensures Split(Pair(key, value), '=') == [EncodeURIComponent(key), EncodeURIComponent(value)]
  {
    var ek, ev := EncodeURIComponent(key), EncodeURIComponent(value);
    NoFormSeparators(key);
    NoFormSeparators(value);
    assert Pair(key, value) == ek + ['='] + ev;
    SplitCons(ek, '=', ev);
    SplitFree(ev, '=');
  }

  lemma ParsePairOfPair(key: string, value: string)
    ensures ParsePair(Pair(key, value)) == Some((key, value))
  {
    PairSplits(key, value);
    DecodeEncode(key);
    DecodeEncode(value);
  }

  lemma {:induction false} ParsePairsOfPairs(rec: Record)
    ensures ParsePairs(Pairs(rec)) == Some(rec)
    decreases |rec|
  {
    if rec != [] {
      ParsePairOfPair(rec[0].0, rec[0].1);
      ParsePairsOfPairs(rec[1..]);
      assert Pairs(rec)[1..] == Pairs(rec[1..]);
      assert [rec[0]] + rec[1..] == rec;
    }
  }

  /** A pair never holds `&`, since its two halves are encoded. */
  lemma PairHasNoAmpersand(key: string, value: string)
    ensures '&' !in Pair(key, value)
  {
    NoFormSeparators(key);
    NoFormSeparators(value);
  }

  /** The empty record, and only it, encodes as the empty body. */
  lemma EncodeEmptyIff(rec: Record)
    ensures Encode(rec) == [] <==> rec == []
  {
    if rec != [] {
      var ps := Pairs(rec);
      assert |ps[0]| > 0;
    }
  }

  /** One segment per key, in key order: read back at `&`, a non-empty
      body is the list of encoded pairs, and each segment splits at its one
      `=` into the encoded key and the encoded value. */
  lemma EncodeSegments(rec: Record)
    requires rec != []
    ensures Split(Encode(rec), '&') == Pairs(rec)
    ensures forall k :: 0 <= k < |rec| ==>
      Split(Pairs(rec)[k], '=') == [EncodeURIComponent(rec[k].0), EncodeURIComponent(rec[k].1)]
  {
    var ps := Pairs(rec);
    forall k | 0 <= k < |ps| ensures '&' !in ps[k] {
      PairHasNoAmpersand(rec[k].0, rec[k].1);
    }
    SplitJoin(ps, '&');
    forall k | 0 <= k < |rec|
      ensures Split(ps[k], '=') == [EncodeURIComponent(rec[k].0), EncodeURIComponent(rec[k].1)]
    {
      PairSplits(rec[k].0, rec[k].1);
    }
  }

  /** Reading the body back gives the record that was encoded: no key or
      value is lost, altered or reordered. */
  lemma ParseEncode(rec: Record)
    ensures ParseBody(Encode(rec)) == Some(rec)
  {
    EncodeEmptyIff(rec);
    if rec != [] {
      EncodeSegments(rec);
      ParsePairsOfPairs(rec);
    }
  }

  /** A string of unreserved characters is its own encoding. */
  lemma {:induction false} EncodeUnreserved(s: string)
    requires forall i :: 0 <= i < |s| ==> Unreserved(s[i])
    ensures EncodeURIComponent(s) == s
    decreases |s|
  {
    if s != [] {
      EncodeUnreserved(s[1..]);
      assert [s[0]] + s[1..] == s;
    }
  }

  /** The request key of each input: its `name` attribute. */
  function KeyOf(f: Field): (k: string)
    ensures k != "form-name"
  {
    match f
    case Name => "name"
    case Email => "email"
    case Message => "message"
  }

  /** `{ "form-name": "contact", ...this.state }`, in key order. */
  function Submission(state: FormFields): (rec: Record)
    ensures |rec| == 4 && rec[0] == ("form-name", "contact")
    ensures forall f: Field :: (KeyOf(f), state.Get(f)) in rec
  {
    [("form-name", "contact"),
     (KeyOf(Name), state.name), (KeyOf(Email), state.email), (KeyOf(Message), state.message)]
  }

  /** The value of the first pair with the given key. */
  function Lookup(rec: Record, key: string): Option<string> {
    if rec == [] then None
    else if rec[0].0 == key then Some(rec[0].1)
    else Lookup(rec[1..], key)
  }

  /** Each input's value is found under its name in the submission. */
  lemma LookupSubmission(state: FormFields, f: Field)
    ensures Lookup(Submission(state), KeyOf(f)) == Some(state.Get(f))
  {
    var rec := Submission(state);
    assert rec[0].0 != KeyOf(f);
    assert rec[1..][1..] == rec[2..] && rec[2..][1..] == rec[3..];
    match f
    case Name =>
    case Email =>
      assert rec[1].0 != KeyOf(f);
      assert Lookup(rec, KeyOf(f)) == Lookup(rec[1..], KeyOf(f)) == Lookup(rec[2..], KeyOf(f));
    case Message =>
      assert rec[1].0 != KeyOf(f) && rec[2].0 != KeyOf(f);
      assert Lookup(rec[1..], KeyOf(f)) == Lookup(rec[2..], KeyOf(f)) == Lookup(rec[3..], KeyOf(f));
  }

  /** Every character of `s` is left as it is by `encodeURIComponent`. */
  predicate AllUnreserved(s: string) {
    forall i :: 0 <= i < |s| ==> Unreserved(s[i])
  }

  /** A key and a value made of unreserved characters are written as they
      are. */
  lemma PlainPair(key: string, value: string)
    requires AllUnreserved(key) && AllUnreserved(value)
    ensures Pair(key, value) == key + "=" + value
  {
    EncodeUnreserved(key);
    EncodeUnreserved(value);
  }

  /** The body posted to `/`: the hidden `form-name` pair, then each
      input's current value under its name. */
  function SubmitBody(state: FormFields): string {
    Encode(Submission(state))
  }

  /** A receiver reads back the hidden pair first and then each input's
      current value under its name. */
  lemma SubmitBodyParses(state: FormFields)
    ensures ParseBody(SubmitBody(state)) == Some(Submission(state))
  {
    ParseEncode(Submission(state));
  }

  /** A body of two or more pairs whose first key and value are made of
      unreserved characters starts with them as written, and `&`. */
  lemma EncodeStartsWith(rec: Record, key: string, value: string)
    requires |rec| >= 2 && rec[0] == (key, value)
    requires AllUnreserved(key) && AllUnreserved(value)
    ensures StartsWith(Encode(rec), key + "=" + value + "&")
  {
    var ps := Pairs(rec);
    PlainPair(key, value);
    assert Encode(rec) == ps[0] + "&" + Join(ps[1..], '&');
  }

  /** The hidden input's name and value need no escaping. */
  lemma HiddenInputPlain()
    ensures AllUnreserved("form-name") && AllUnreserved("contact")
    ensures "form-name" + "=" + "contact" + "&" == "form-name=contact&"
  {
  }

  /** The posted body starts with the hidden input's pair, as written. */
  lemma BodyStartsWithFormName(state: FormFields)
    ensures StartsWith(SubmitBody(state), "form-name=contact&")
  {
    HiddenInputPlain();
    EncodeStartsWith(Submission(state), "form-name", "contact");
  }

  /** After a change to one input, the posted body carries the new value
      under that input's name and the other inputs' values under theirs. */
  lemma ChangeReachesBody(state: FormFields, f: Field, v: string)
    ensures var parsed := ParseBody(SubmitBody(state.Set(f, v)));
      && parsed.Some?
      && Lookup(parsed.value, KeyOf(f)) == Some(v)
      && forall g :: g != f ==> Lookup(parsed.value, KeyOf(g)) == Some(state.Get(g))
  {
    var next := state.Set(f, v);
    SubmitBodyParses(next);
    LookupSubmission(next, f);
    forall g | g != f ensures Lookup(Submission(next), KeyOf(g)) == Some(state.Get(g)) {
      LookupSubmission(next, g);
    }
  }

  /** The text of the `alert` shown when the form is submitted. */
  function AlertText(state: FormFields): string {
    "A name was submitted: " + state.name + " with email: " + state.email
    + " and message: " + state.message
  }

  /** The component: its state is the three field values. */
  class ContactForm {
    var state: FormFields

    /** The constructor sets every field to the empty string. */
    constructor ()
      ensures state == Empty
    {
      state := Empty;
    }

    /** `setState({ [event.target.name]: event.target.value })`: the input
        named by the event takes the typed value; the others are kept. */
    method HandleChange(f: Field, value: string)
      modifies this
      ensures state == old(state).Set(f, value)
    {
      state := state.Set(f, value);
    }

    /** The submit handler: the alert text and the body it posts; the
        state is not changed. */
    method HandleSubmit() returns (notice: string, body: string)
      ensures notice == AlertText(state)
      ensures body == SubmitBody(state)
    {
      notice := AlertText(state);
      body := SubmitBody(state);
    }
  }
}
