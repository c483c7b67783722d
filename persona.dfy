/** The two personas of the mobile client and the lookup by id. */
module Personas {
  import opened Wrappers

  datatype Persona = Khadija | Brian

  /** The id the server and the socket events use. */
  function Id(p: Persona): string {
    match p
    case Khadija => "khadija"
    case Brian => "brian"
  }

  function DisplayName(p: Persona): string {
    match p
    case Khadija => "خديجه"
    case Brian => "Brian"
  }

  /** The language a persona reads and writes. */
  function LocaleOf(p: Persona): string {
    match p
    case Khadija => "fa"
    case Brian => "en"
  }

  /** The enum's entries, in declaration order. */
  const Entries: seq<Persona> := [Khadija, Brian]

  /** The first entry whose id equals `id`. */
  function FirstWithId(entries: seq<Persona>, id: Option<string>): (r: Option<Persona>)
    ensures r.Some? ==> r.value in entries && id == Some(Id(r.value))
    ensures r.None? <==> forall i :: 0 <= i < |entries| ==> id != Some(Id(entries[i]))
  {
    if entries == [] then None
    else if id == Some(Id(entries[0])) then Some(entries[0])
    else FirstWithId(entries[1..], id)
  }

  /** `Persona.fromId`. */
  function FromId(id: Option<string>): Option<Persona> {
    FirstWithId(Entries, id)
  }

  /** The ids are distinct, so every persona is found by its own id. */
  lemma FromIdRoundTrip(p: Persona)
    ensures FromId(Some(Id(p))) == Some(p)
  {
    assert Id(Khadija) != Id(Brian);
    assert FirstWithId(Entries, Some(Id(Khadija))) == Some(Khadija);
    assert Entries[1..] == [Brian];
    assert FirstWithId([Brian], Some(Id(Brian))) == Some(Brian);
  }

  /** Only "khadija" and "brian" are found; null and every other string give null. */
  lemma FromIdKnown(id: Option<string>)
    ensures FromId(id).Some? <==> id == Some("khadija") || id == Some("brian")
    ensures FromId(id).Some? ==> Some(Id(FromId(id).value)) == id
  {
  }
}
