/** The display strings of a small Australian store: one country, a named and
    an unnamed state, and localities with and without a name or postal code. */
module DisplayExamples {
  import opened Wrappers
  import opened Values
  import opened Records
  import opened Display

  const Australia := Country("Australia", "AU")
  const Victoria := State("Victoria", "VIC", 0)
  const NoNameState := State("", "", 0)
  const Melbourne := Locality("Melbourne", "3000", 0)
  const Fitzroy := Locality("Fitzroy", "", 0)
  const NoNameLocality := Locality("", "", 0)
  const Northcote := Locality("Northcote", "3070", 0)

  const Sample := Store([Australia], [Victoria, NoNameState], [Melbourne, Fitzroy, NoNameLocality, Northcote], [])

  /** A State shows `name, country`; one with neither name nor code shows only
      its country. */
  lemma StateExamples()
    ensures CountryText(Australia) == "Australia"
    ensures StateText(Sample, Victoria) == "Victoria, Australia"
    ensures StateText(Sample, NoNameState) == "Australia"
  {
    assert CountryOf(Sample, 0) == Some(Australia);
  }

  /** A Locality shows its name, its state, its postal code and its country. */
  lemma MelbourneText()
    ensures LocalityText(Sample, Melbourne) == "Melbourne, Victoria 3000, Australia"
  {
    VictoriaParts();
    MelbourneSpelling();
  }

  lemma NorthcoteText()
    ensures LocalityText(Sample, Northcote) == "Northcote, Victoria 3070, Australia"
  {
    VictoriaParts();
    NorthcoteSpelling();
  }

  /** Without a postal code no space is added after the state. */
  lemma FitzroyText()
    ensures LocalityText(Sample, Fitzroy) == "Fitzroy, Victoria, Australia"
  {
    VictoriaParts();
    FitzroySpelling();
  }

  /** Without a name the text starts at the state. */
  lemma NamelessLocalityText()
    ensures LocalityText(Sample, NoNameLocality) == "Victoria, Australia"
  {
    VictoriaParts();
    assert "" + "Victoria" + ", " + "Australia" == "Victoria, Australia";
  }

  lemma MelbourneSpelling()
    ensures "Melbourne" + ", " + "Victoria" + " " + "3000" + ", " + "Australia"
        == "Melbourne, Victoria 3000, Australia"
  {
  }

  lemma NorthcoteSpelling()
    ensures "Northcote" + ", " + "Victoria" + " " + "3070" + ", " + "Australia"
        == "Northcote, Victoria 3070, Australia"
  {
  }

  lemma FitzroySpelling()
    ensures "Fitzroy" + ", " + "Victoria" + ", " + "Australia" == "Fitzroy, Victoria, Australia"
  {
  }

  /** The state and country every locality of the sample hangs from. */
  lemma VictoriaParts()
    ensures StateOf(Sample, 0) == Some(Victoria) && StateShort(Victoria) == "Victoria"
    ensures CountryOf(Sample, 0) == Some(Australia) && CountryTextOf(Some(Australia)) == "Australia"
  {
  }

  /** An Address without `formatted` shows its street line, a comma, then its
      locality. */
  lemma AddressExample()
    ensures AddressText(Sample, Address("1", "Some Street", None, Some(0), "1 Some Street, Victoria, Melbourne", "", Null, Null))
      == "1 Some Street, Melbourne, Victoria 3000, Australia"
  {
    var a := Address("1", "Some Street", None, Some(0), "1 Some Street, Victoria, Melbourne", "", Null, Null);
    MelbourneText();
    assert LocalityOf(Sample, a.locality) == Some(Melbourne);
    StreetSpelling();
    assert StreetLine(a) == "1 Some Street";
    AddressTextRules(Sample, a);
    StreetAndLocalitySpelling();
  }

  /** A subpremise follows the route after ` #`. */
  lemma SubpremiseAddressExample()
    ensures AddressText(Sample, Address("1", "Some Street", Some("300"), Some(3), "1 Some Street #300, Northcote, Victoria", "", Null, Null))
      == "1 Some Street #300, Northcote, Victoria 3070, Australia"
  {
    var a := Address("1", "Some Street", Some("300"), Some(3), "1 Some Street #300, Northcote, Victoria", "", Null, Null);
    NorthcoteText();
    assert LocalityOf(Sample, a.locality) == Some(Northcote);
    StreetSpelling();
    SubpremiseSpelling();
    assert StreetLine(a) == "1 Some Street #300";
    AddressTextRules(Sample, a);
    SubpremiseAndLocalitySpelling();
  }

  lemma StreetSpelling()
    ensures "1" + " " + "Some Street" == "1 Some Street"
  {
  }

  lemma SubpremiseSpelling()
    ensures "1 Some Street" + " #" + "300" == "1 Some Street #300"
  {
  }

  lemma StreetAndLocalitySpelling()
    ensures "1 Some Street" + ", " + "Melbourne, Victoria 3000, Australia"
         == "1 Some Street, Melbourne, Victoria 3000, Australia"
  {
  }

  lemma SubpremiseAndLocalitySpelling()
    ensures "1 Some Street #300" + ", " + "Northcote, Victoria 3070, Australia"
         == "1 Some Street #300, Northcote, Victoria 3070, Australia"
  {
  }

  /** Without a street number only the locality is shown. */
  lemma LocalityOnlyAddressExample()
    ensures AddressText(Sample, Address("", "", None, Some(3), "Northcote, Victoria", "", Null, Null))
      == "Northcote, Victoria 3070, Australia"
  {
    NorthcoteText();
    assert LocalityOf(Sample, Some(3)) == Some(Northcote);
  }

  /** An Address built from `raw` alone fails `clean` exactly when `raw` is empty. */
  lemma CleanExamples()
    ensures Clean(RawOnly("")) == Err(BlankRaw)
    ensures Clean(RawOnly("Someplace")).Ok?
  {
  }
}
