/**
 * The MOM (Management Object Model) federation reflector: a registry of the
 * federates of one federation, and the assembler that serializes the
 * requested HLAfederation attributes into one reflection update.
 */
module Mom {

  newtype byte = b: int | 0 <= b < 256

  type Bytes = seq<byte>

  /** A Java reference that may be null. */
  datatype Option<T> = None | Some(value: T)

  /** The interface specification a federate was connected with. */
  datatype Version = HLA13 | IEEE1516 | IEEE1516e | Other

  /** The versions for which a string encoder exists. */
  predicate Supported(version: Version)
  {
    version == HLA13 || version == IEEE1516 || version == IEEE1516e
  }

  /** The outcome of an operation that throws on an unknown interface version. */
  datatype Outcome<T> = Ok(value: T) | UnknownSpecVersion(version: Version)

  /**
   * The attributes of the HLAfederation object class the assembler knows, in
   * the order of its switch, and `Unlisted` for every other value the
   * handle lookup can produce (the switch's `default`).
   */
  datatype Property =
    | FederationName
    | FederatesInFederation
    | RtiVersion
    | MimDesignator
    | FomModuleDesignatorList
    | CurrentFdd
    | FedID
    | TimeImplementationName
    | LastSaveName
    | LastSaveTime
    | NextSaveName
    | NextSaveTime
    | AutoProvide
    | ConveyRegionDesignatorSets
    | Unlisted

  /** True for the properties the switch has a case for. */
  predicate HasAccessor(p: Property)
  {
    p != Unlisted
  }

  /** True for the listed properties whose accessor only reports "not yet supported". */
  predicate IsPlaceholder(p: Property)
  {
    HasAccessor(p) && p != FederationName && p != RtiVersion
  }

  /**
   * The code this core calls but does not contain: the handle-to-property
   * lookup, the two string encoders, and the RTI's name, version and
   * reserved source handle.
   */
  datatype Collaborators = Collaborators(
    forHandle: int -> Property,
    legacyEncode: string -> Bytes,
    unicodeEncode: string -> Bytes,
    rtiName: string,
    rtiVersion: string,
    rtiHandle: int)

  /** The management record of the federation; only its name is read. */
  datatype FederationRecord = FederationRecord(federationName: string)

  /** The object instance that represents the federation; only its handle is read. */
  datatype ObjectInstance = ObjectInstance(handle: int)

  /** The federate whose MOM record is kept; only its handle is read. */
  datatype Federate = Federate(federateHandle: int)

  /** The per-federate MOM record. */
  datatype MomFederate = MomFederate(federate: Federate)

  /** An attribute reflection: target object, tag, values by attribute handle, source federate. */
  datatype UpdateAttributes = UpdateAttributes(
    objectHandle: int,
    tag: Bytes,
    attributes: map<int, Bytes>,
    sourceFederate: int)

  /**
   * encodeString: HLA 1.3 uses the legacy encoder, both IEEE 1516 versions
   * use the HLAunicodeString encoder, any other version throws.
   */
  function EncodeString(env: Collaborators, version: Version, s: string): (r: Outcome<Bytes>)
    ensures r.Ok? <==> Supported(version)
    ensures r.UnknownSpecVersion? ==> r.version == version
  {
    match version
    case HLA13 => Ok(env.legacyEncode(s))
    case IEEE1516e => Ok(env.unicodeEncode(s))
    case IEEE1516 => Ok(env.unicodeEncode(s))
    case Other => UnknownSpecVersion(version)
  }

  /** The text notYetSupported hands to the encoder for a property name. */
  function PlaceholderText(name: string): string
  {
    "property [" + name + "] not yet supported"
  }

  /** notYetSupported: the encoded placeholder for a property name. */
  function NotYetSupported(env: Collaborators, version: Version, name: string): (r: Outcome<Bytes>)
    ensures r.Ok? <==> Supported(version)
  {
    EncodeString(env, version, PlaceholderText(name))
  }

  /** The label each placeholder accessor reports (FomModuleDesignatorList reports "HLAversion"). */
  function Label(p: Property): string
    requires IsPlaceholder(p)
  {
    match p
    case FederatesInFederation => "FederatesInFederation"
    case MimDesignator => "MimDesignator"
    case FomModuleDesignatorList => "HLAversion"
    case CurrentFdd => "CurrentFDD"
    case FedID => "FedID"
    case TimeImplementationName => "TimeImplementation"
    case LastSaveName => "LastSaveName"
    case LastSaveTime => "LastSaveTime"
    case NextSaveName => "NextSaveName"
    case NextSaveTime => "NextSaveTime"
    case AutoProvide => "AutoProvide"
    case ConveyRegionDesignatorSets => "ConveyRegionDesignatorSets"
  }

  /** The accessor of each listed property: getFederationName, getRtiVersion or a placeholder. */
  function Serialize(env: Collaborators, fed: FederationRecord, version: Version, p: Property): (r: Outcome<Bytes>)
    requires HasAccessor(p)
    ensures r.Ok? <==> Supported(version)
  {
    match p
    case FederationName => EncodeString(env, version, fed.federationName)
    case RtiVersion => EncodeString(env, version, env.rtiName + " v" + env.rtiVersion)
    case FederatesInFederation => NotYetSupported(env, version, Label(p))
    case MimDesignator => NotYetSupported(env, version, Label(p))
    case FomModuleDesignatorList => NotYetSupported(env, version, Label(p))
    case CurrentFdd => NotYetSupported(env, version, Label(p))
    case FedID => NotYetSupported(env, version, Label(p))
    case TimeImplementationName => NotYetSupported(env, version, Label(p))
    case LastSaveName => NotYetSupported(env, version, Label(p))
    case LastSaveTime => NotYetSupported(env, version, Label(p))
    case NextSaveName => NotYetSupported(env, version, Label(p))
    case NextSaveTime => NotYetSupported(env, version, Label(p))
    case AutoProvide => NotYetSupported(env, version, Label(p))
    case ConveyRegionDesignatorSets => NotYetSupported(env, version, Label(p))
  }

  /** The attribute map for `handles` under a version that has an encoder. */
  function Entries(env: Collaborators, fed: FederationRecord, version: Version, handles: set<int>): map<int, Bytes>
    requires Supported(version)
  {
    map h | h in handles && HasAccessor(env.forHandle(h)) :: Serialize(env, fed, version, env.forHandle(h)).value
  }

  /**
   * The loop invariant of generateUpdate once the handles in `done` are
   * processed: under a version with an encoder, `attributes` holds their
   * entries; otherwise it is still empty and none of them had an accessor.
   */
  predicate Assembled(env: Collaborators, fed: FederationRecord, version: Version,
                      done: set<int>, attributes: map<int, Bytes>)
  {
    if Supported(version) then attributes == Entries(env, fed, version, done)
    else attributes == map[] && forall h :: h in done ==> !HasAccessor(env.forHandle(h))
  }

  /** Processing one more handle, as the loop body does, keeps the invariant. */
  lemma AssembledStep(env: Collaborators, fed: FederationRecord, version: Version,
                      done: set<int>, attributes: map<int, Bytes>, h: int)
    requires Assembled(env, fed, version, done, attributes)
    requires HasAccessor(env.forHandle(h)) ==> Supported(version)
    ensures Assembled(env, fed, version, done + {h},
      if HasAccessor(env.forHandle(h))
      then attributes[h := Serialize(env, fed, version, env.forHandle(h)).value]
      else attributes)
  {
  }

  /** Once nothing is left to process, every requested handle has been processed. */
  lemma AllProcessed(done: set<int>, rest: set<int>, handles: set<int>)
    requires done + rest == handles && !exists h :: h in rest
    ensures done == handles
  {
    forall h | h in handles ensures h in done {}
    forall h | h in done ensures h in handles {}
  }

  /**
   * What generateUpdate produces: an update carrying one entry per requested
   * handle whose property is listed.  The encoder throws only when it is
   * reached, so an unknown version fails the call exactly when some listed
   * property is requested.
   */
  function ExpectedUpdate(env: Collaborators, fed: FederationRecord, obj: ObjectInstance,
                          version: Version, handles: set<int>): Outcome<UpdateAttributes>
  {
    if Supported(version) then
      Ok(UpdateAttributes(obj.handle, [], Entries(env, fed, version, handles), env.rtiHandle))
    else if exists h :: h in handles && HasAccessor(env.forHandle(h)) then
      UnknownSpecVersion(version)
    else
      Ok(UpdateAttributes(obj.handle, [], map[], env.rtiHandle))
  }

  /** encodeString picks the legacy encoder for HLA 1.3, the unicode one for both IEEE 1516 versions. */
  lemma EncoderSelection(env: Collaborators, s: string)
    ensures EncodeString(env, HLA13, s) == Ok(env.legacyEncode(s))
    ensures EncodeString(env, IEEE1516, s) == EncodeString(env, IEEE1516e, s) == Ok(env.unicodeEncode(s))
    ensures EncodeString(env, Other, s) == UnknownSpecVersion(Other)
  {
  }

  /** The placeholder text names its property between the brackets. */
  lemma PlaceholderNamesProperty(name: string)
    ensures var t := PlaceholderText(name);
      |t| == |name| + 29 && t[10..10 + |name|] == name
  {
  }

  /** Different property names give different placeholder texts. */
  lemma {:induction false} PlaceholderTextInjective(a: string, b: string)
    ensures PlaceholderText(a) == PlaceholderText(b) ==> a == b
  {
    if PlaceholderText(a) == PlaceholderText(b) {
      PlaceholderNamesProperty(a);
      PlaceholderNamesProperty(b);
    }
  }

  /** No two placeholder accessors report the same label. */
  lemma LabelsDistinct(p: Property, q: Property)
    requires IsPlaceholder(p) && IsPlaceholder(q) && p != q
    ensures Label(p) != Label(q)
  {
  }

  /** So the placeholder bytes fed to the encoder tell the properties apart. */
  lemma PlaceholdersIdentifyProperty(p: Property, q: Property)
    requires IsPlaceholder(p) && IsPlaceholder(q) && p != q
    ensures PlaceholderText(Label(p)) != PlaceholderText(Label(q))
  {
    LabelsDistinct(p, q);
    PlaceholderTextInjective(Label(p), Label(q));
  }

  /** A produced update carries an entry exactly for the requested handles with a listed property. */
  lemma UpdateKeys(env: Collaborators, fed: FederationRecord, obj: ObjectInstance,
                   version: Version, handles: set<int>, h: int)
    requires ExpectedUpdate(env, fed, obj, version, handles).Ok?
    ensures h in ExpectedUpdate(env, fed, obj, version, handles).value.attributes
            <==> h in handles && HasAccessor(env.forHandle(h))
  {
  }

  /** A produced update targets the federation object, has an empty tag and comes from the RTI. */
  lemma UpdateEnvelope(env: Collaborators, fed: FederationRecord, obj: ObjectInstance,
                       version: Version, handles: set<int>)
    requires ExpectedUpdate(env, fed, obj, version, handles).Ok?
    ensures var u := ExpectedUpdate(env, fed, obj, version, handles).value;
      u.objectHandle == obj.handle && u.tag == [] && u.sourceFederate == env.rtiHandle
  {
  }

  /** The update fails exactly when the version has no encoder and some listed property is requested. */
  lemma UnknownVersionFails(env: Collaborators, fed: FederationRecord, obj: ObjectInstance,
                            version: Version, handles: set<int>)
    ensures ExpectedUpdate(env, fed, obj, version, handles).UnknownSpecVersion?
            <==> !Supported(version) && exists h :: h in handles && HasAccessor(env.forHandle(h))
    ensures ExpectedUpdate(env, fed, obj, version, handles).UnknownSpecVersion? ==>
            ExpectedUpdate(env, fed, obj, version, handles).version == version
  {
  }

  /** An empty request yields an empty update under every version, even an unknown one. */
  lemma EmptyRequest(env: Collaborators, fed: FederationRecord, obj: ObjectInstance, version: Version)
    ensures ExpectedUpdate(env, fed, obj, version, {}) == Ok(UpdateAttributes(obj.handle, [], map[], env.rtiHandle))
  {
  }

  /** The FederationName entry is the encoded federation name. */
  lemma FederationNameEntry(env: Collaborators, fed: FederationRecord, obj: ObjectInstance,
                            version: Version, handles: set<int>, h: int)
    requires ExpectedUpdate(env, fed, obj, version, handles).Ok?
    requires h in handles && env.forHandle(h) == FederationName
    ensures var u := ExpectedUpdate(env, fed, obj, version, handles).value;
      h in u.attributes && Ok(u.attributes[h]) == EncodeString(env, version, fed.federationName)
  {
    UpdateKeys(env, fed, obj, version, handles, h);
  }

  /** The RtiVersion entry is the encoded "<RTI name> v<RTI version>". */
  lemma RtiVersionEntry(env: Collaborators, fed: FederationRecord, obj: ObjectInstance,
                        version: Version, handles: set<int>, h: int)
    requires ExpectedUpdate(env, fed, obj, version, handles).Ok?
    requires h in handles && env.forHandle(h) == RtiVersion
    ensures var u := ExpectedUpdate(env, fed, obj, version, handles).value;
      h in u.attributes && Ok(u.attributes[h]) == EncodeString(env, version, env.rtiName + " v" + env.rtiVersion)
  {
    UpdateKeys(env, fed, obj, version, handles, h);
  }

  /** Every other listed property's entry is its encoded "not yet supported" placeholder. */
  lemma PlaceholderEntry(env: Collaborators, fed: FederationRecord, obj: ObjectInstance,
                         version: Version, handles: set<int>, h: int)
    requires ExpectedUpdate(env, fed, obj, version, handles).Ok?
    requires h in handles && IsPlaceholder(env.forHandle(h))
    ensures var u := ExpectedUpdate(env, fed, obj, version, handles).value;
      h in u.attributes && Ok(u.attributes[h]) == EncodeString(env, version, PlaceholderText(Label(env.forHandle(h))))
  {
    UpdateKeys(env, fed, obj, version, handles, h);
  }

  /** The two IEEE 1516 versions produce the same update. */
  lemma ModernVersionsAgree(env: Collaborators, fed: FederationRecord, obj: ObjectInstance, handles: set<int>)
    ensures ExpectedUpdate(env, fed, obj, IEEE1516, handles) == ExpectedUpdate(env, fed, obj, IEEE1516e, handles)
  {
    var old1516 := Entries(env, fed, IEEE1516, handles);
    var new1516 := Entries(env, fed, IEEE1516e, handles);
    forall h | h in old1516 ensures h in new1516 && old1516[h] == new1516[h] {}
    forall h | h in new1516 ensures h in old1516 {}
    assert old1516 == new1516;
  }

  /** The MOM view of one federation. */
  class MomFederation {
    const federation: FederationRecord
    const federationObject: ObjectInstance
    var federates: map<int, MomFederate>

    /** Every record is stored under its own federate's handle. */
    predicate Valid()
      reads this
    {
      forall h :: h in federates ==> federates[h].federate.federateHandle == h
    }

    constructor (federation: FederationRecord, federationObject: ObjectInstance)
      ensures this.federation == federation && this.federationObject == federationObject
      ensures federates == map[]
      ensures Valid()
    {
      this.federation := federation;
      this.federationObject := federationObject;
      federates := map[];
    }

    /** Stores the record under its federate's handle, replacing any earlier one. */
    method AddFederate(momFederate: MomFederate)
      requires Valid()
      modifies this
      ensures Valid()
      ensures federates == old(federates)[momFederate.federate.federateHandle := momFederate]
      ensures GetFederate(momFederate.federate.federateHandle) == Some(momFederate)
      ensures forall h :: h != momFederate.federate.federateHandle ==> GetFederate(h) == old(GetFederate(h))
    {
      federates := federates[momFederate.federate.federateHandle := momFederate];
    }

    /** Removes and returns the record under `federateHandle`, or None if there was none. */
    method RemoveFederate(federateHandle: int) returns (r: Option<MomFederate>)
      requires Valid()
      modifies this
      ensures Valid()
      ensures r == old(GetFederate(federateHandle))
      ensures federates == old(federates) - {federateHandle}
      ensures GetFederate(federateHandle) == None
    {
      r := GetFederate(federateHandle);
      federates := federates - {federateHandle};
    }

    /** The record under `federateHandle`, or None (Java's null). */
    function GetFederate(federateHandle: int): (r: Option<MomFederate>)
      reads this
      ensures r.Some? <==> federateHandle in federates
      ensures r.Some? ==> federates[federateHandle] == r.value
      ensures Valid() && r.Some? ==> r.value.federate.federateHandle == federateHandle
    {
      if federateHandle in federates then Some(federates[federateHandle]) else None
    }

    /** Forgets every federate. */
    method Clear()
      modifies this
      ensures Valid()
      ensures federates == map[]
      ensures forall h :: GetFederate(h) == None
    {
      federates := map[];
    }

    /**
     * generateUpdate: serializes each requested handle's property into a
     * fresh map, skipping unlisted ones, and addresses the update from the
     * RTI to the federation object.  It changes no state of this object.
     */
    method GenerateUpdate(env: Collaborators, version: Version, handles: set<int>)
      returns (r: Outcome<UpdateAttributes>)
      ensures r == ExpectedUpdate(env, federation, federationObject, version, handles)
    {
      var attributes: map<int, Bytes> := map[];
      var rest := handles;
      ghost var done: set<int> := {};
      while exists h :: h in rest
        invariant done + rest == handles && done !! rest
        invariant Assembled(env, federation, version, done, attributes)
        decreases rest
      {
        var handle :| handle in rest;
        var p := env.forHandle(handle);
        if HasAccessor(p) ==> Supported(version) {
          AssembledStep(env, federation, version, done, attributes, handle);
        }
        if HasAccessor(p) {
          var value := Serialize(env, federation, version, p);
          if value.UnknownSpecVersion? {
            return UnknownSpecVersion(value.version);
          }
          attributes := attributes[handle := value.value];
        }
        rest := rest - {handle};
        done := done + {handle};
      }
      AllProcessed(done, rest, handles);
      r := Ok(UpdateAttributes(federationObject.handle, [], attributes, env.rtiHandle));
    }
  }

  /**
   * A join followed by two resigns of the same federate: the lookup finds the
   * record, the first removal returns it, the second finds nothing, and the
   * other federates are as before.
   */
  method JoinThenResignTwice(registry: MomFederation, momFederate: MomFederate)
    returns (found: Option<MomFederate>, first: Option<MomFederate>, second: Option<MomFederate>)
    requires registry.Valid()
    modifies registry
    ensures registry.Valid()
    ensures found == Some(momFederate) && first == Some(momFederate) && second == None
    ensures forall h :: h != momFederate.federate.federateHandle ==>
              registry.GetFederate(h) == old(registry.GetFederate(h))
    ensures registry.GetFederate(momFederate.federate.federateHandle) == None
  {
    registry.AddFederate(momFederate);
    found := registry.GetFederate(momFederate.federate.federateHandle);
    first := registry.RemoveFederate(momFederate.federate.federateHandle);
    second := registry.RemoveFederate(momFederate.federate.federateHandle);
  }

  /** Adding a second record for the same federate handle replaces the first. */
  method RejoinReplaces(registry: MomFederation, earlier: MomFederate, later: MomFederate)
    returns (found: Option<MomFederate>)
    requires registry.Valid()
    requires earlier.federate.federateHandle == later.federate.federateHandle
    modifies registry
    ensures registry.Valid()
    ensures found == Some(later)
  {
    registry.AddFederate(earlier);
    registry.AddFederate(later);
    found := registry.GetFederate(earlier.federate.federateHandle);
  }
}
