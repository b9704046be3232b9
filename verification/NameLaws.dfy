/** The laws about names that the record-set model asks of its library, derived from how names are canonicalized. */
module NameLaws {
  import opened Wrappers
  import opened Utf8
  import opened RecordEntries
  import opened Names

  /** `lib` with the program's own treatment of targets and of owner names in the zone. */
  function WithNames(lib: Library, idna: Idna, zoneName: Bytes): Library {
    lib.(hostname := (text: Bytes) => CanonicalName(idna, text, false),
         owner := (text: Bytes) => CanonicalRecordName(idna, text, zoneName))
  }

  lemma HostnameIsLawful(lib: Library, idna: Idna, zoneName: Bytes, text: Bytes)
    requires LawfulIdna(idna) && CanonicalName(idna, text, false).Some?
    ensures HostnameTwice(WithNames(lib, idna, zoneName), CanonicalName(idna, text, false).value)
  {
    var r := CanonicalName(idna, text, false).value;
    CanonicalPieces(idna, text, false);
    PiecedBytes(idna, r, false);
    CanonicalIsNonEmpty(idna, text, false);
    CanonicalNameTwice(idna, text, false);
  }

  lemma OwnerIsLawful(lib: Library, idna: Idna, zoneName: Bytes, text: Bytes)
    requires LawfulIdna(idna) && WholeZone(idna, zoneName) && CanonicalRecordName(idna, text, zoneName).Some?
    ensures OwnerTwice(WithNames(lib, idna, zoneName), CanonicalRecordName(idna, text, zoneName).value)
  {
    RecordNameTwice(idna, text, zoneName);
  }

  /** The program's names meet the laws, whatever label mapping meets its own. */
  lemma NamesAreLawful(lib: Library, idna: Idna, zoneName: Bytes)
    requires Lawful(lib) && LawfulIdna(idna) && WholeZone(idna, zoneName)
    ensures Lawful(WithNames(lib, idna, zoneName))
  {
    var named := WithNames(lib, idna, zoneName);
    forall text | named.hostname(text).Some? ensures HostnameTwice(named, named.hostname(text).value) {
      HostnameIsLawful(lib, idna, zoneName, text);
    }
    forall text | named.owner(text).Some? ensures OwnerTwice(named, named.owner(text).value) {
      OwnerIsLawful(lib, idna, zoneName, text);
    }
    forall rtype, text | named.address(rtype, text).Some?
      ensures AddressFixed(named, rtype, named.address(rtype, text).value)
    {
      assert AddressFixed(lib, rtype, lib.address(rtype, text).value);
    }
  }
}
