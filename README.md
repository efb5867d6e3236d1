# Portico MOM federation reflector, in Dafny

This project models two parts of the Portico HLA RTI.

The first is the Management Object Model (MOM) view of one federation, `MomFederation`. It keeps a map from federate handle to the federate's MOM record. On request it serializes a set of HLAfederation attributes into one attribute reflection. The reflection is addressed to the object instance that represents the federation and carries the RTI's reserved handle as its source. Each attribute is encoded as a string in the layout of the caller's interface version:
- HLA 1.3 uses the legacy encoder;
- IEEE 1516 and IEEE 1516-2010 both use the `HLAunicodeString` encoder;
- any other version throws.

Most attributes are not implemented yet. Each of them reflects a self-describing placeholder, "property [<name>] not yet supported".

The second part is the IEEE 1516-2010 attribute handle set. It is a hash set of handles that wrap integers. It can be built from a set of integers and cloned into an independent copy.

Files:
- `mom_federation.dfy`, module `Mom`. It holds the data model, `EncodeString` and `NotYetSupported`, the accessor dispatch `Serialize` and the specification `ExpectedUpdate` of an update. It also holds the class `MomFederation`, with the registry methods and the `GenerateUpdate` loop, and the lemmas about the update.
- `attribute_handle_set.dfy`, module `Hla1516eTypes`. It holds the class `AttributeHandleSet`.

Code outside this core is a parameter record, `Mom.Collaborators`:
- the handle-to-property lookup, the Java enum method `org.portico.lrc.model.Mom.Federation.forHandle`;
- the two string encoders, `JEncodingHelpers.encodeString` and `HLA1516eUnicodeString.toByteArray`;
- the constants `RTI_NAME`, `RTI_VERSION` and `RTI_HANDLE` of `PorticoConstants`.

The model states every property for all values of these collaborators. The Java types `org.portico.lrc.management.Federation`, `OCInstance` and `MomFederate` become the records `Mom.FederationRecord`, `Mom.ObjectInstance` and `Mom.MomFederate`. Each exposes only the getter the core reads.

The registry keeps one invariant, `Mom.MomFederation.Valid`: every record is stored under its own federate's handle, because `addFederate` keys the map by that handle. The constructor establishes it and every mutator keeps it.

`GenerateUpdate` is proved against `ExpectedUpdate`. Its loop takes the requested handles in an arbitrary order, as iteration over a Java `HashSet` does. The method has no `modifies` clause, so it cannot change the federate registry.

Two behaviours of the code that a stricter design would change. The model follows the code in both:
- A requested handle whose property has no case in the switch is skipped. It gets no entry and no error. It is not reported as an unknown attribute.
- An unknown interface version fails the call only when the encoder is actually reached, that is, when some requested handle has a listed property. With no such handle, the call returns an empty update even under an unknown version (`Mom.EmptyRequest`, `Mom.UnknownVersionFails`).

`FomModuleDesignatorList` reports the label "HLAversion", not its own name. The model keeps that label. The labels stay pairwise distinct (`Mom.LabelsDistinct`), so each placeholder still identifies its property.

## Model

| member | source | states |
|---|---|---|
| `Mom.EncodeString` | codebase/src/java/portico/org/portico/lrc/services/mom/data/MomFederation.java:227-240 | encoding succeeds exactly for HLA 1.3, IEEE 1516 and IEEE 1516-2010; any other version fails with that version |
| `Mom.EncoderSelection` | codebase/src/java/portico/org/portico/lrc/services/mom/data/MomFederation.java:229-238 | HLA 1.3 gives the legacy bytes; IEEE 1516 and IEEE 1516-2010 give identical bytes, the unicode encoder's; another version throws |
| `Mom.NotYetSupported` | codebase/src/java/portico/org/portico/lrc/services/mom/data/MomFederation.java:221-225 | the placeholder is produced exactly when the version has an encoder |
| `Mom.PlaceholderNamesProperty` | codebase/src/java/portico/org/portico/lrc/services/mom/data/MomFederation.java:224 | the placeholder text contains the property name right after "property [", and is 29 characters longer than it |
| `Mom.PlaceholderTextInjective` | codebase/src/java/portico/org/portico/lrc/services/mom/data/MomFederation.java:224 | different property names give different placeholder texts |
| `Mom.Serialize` | codebase/src/java/portico/org/portico/lrc/services/mom/data/MomFederation.java:89-151 | each listed property's accessor yields bytes exactly when the version has an encoder |
| `Mom.LabelsDistinct` | codebase/src/java/portico/org/portico/lrc/services/mom/data/MomFederation.java:94-151 | no two unimplemented accessors report the same label (including "HLAversion" for FomModuleDesignatorList) |
| `Mom.PlaceholdersIdentifyProperty` | codebase/src/java/portico/org/portico/lrc/services/mom/data/MomFederation.java:203-207 | two different unimplemented properties feed different texts to the encoder |
| `Mom.AssembledStep` | codebase/src/java/portico/org/portico/lrc/services/mom/data/MomFederation.java:164-211 | one pass of the loop body keeps the invariant: entries of the processed handles so far, or nothing yet under an unknown version |
| `Mom.UpdateKeys` | codebase/src/java/portico/org/portico/lrc/services/mom/data/MomFederation.java:162-211 | a produced update has an entry for a handle exactly when it was requested and its property has a case; others are skipped without error |
| `Mom.UpdateEnvelope` | codebase/src/java/portico/org/portico/lrc/services/mom/data/MomFederation.java:214-218 | a produced update targets the federation object's handle, has an empty tag and has the RTI handle as source |
| `Mom.UnknownVersionFails` | codebase/src/java/portico/org/portico/lrc/services/mom/data/MomFederation.java:162-240 | the update fails exactly when the version has no encoder and some requested handle has a listed property; the failure names the version |
| `Mom.EmptyRequest` | codebase/src/java/portico/org/portico/lrc/services/mom/data/MomFederation.java:156-219 | an empty request gives an update with no attributes under every version |
| `Mom.FederationNameEntry` | codebase/src/java/portico/org/portico/lrc/services/mom/data/MomFederation.java:89-92 | the FederationName entry is the encoding of the federation's name |
| `Mom.RtiVersionEntry` | codebase/src/java/portico/org/portico/lrc/services/mom/data/MomFederation.java:100-103 | the RtiVersion entry is the encoding of RTI_NAME + " v" + RTI_VERSION |
| `Mom.PlaceholderEntry` | codebase/src/java/portico/org/portico/lrc/services/mom/data/MomFederation.java:170-207 | every other listed property's entry is the encoding of "property [label] not yet supported" with that property's label |
| `Mom.ModernVersionsAgree` | codebase/src/java/portico/org/portico/lrc/services/mom/data/MomFederation.java:233-236 | IEEE 1516 and IEEE 1516-2010 requests produce the same update |
| `Mom.MomFederation.constructor` | codebase/src/java/portico/org/portico/lrc/services/mom/data/MomFederation.java:54-60 | a new MOM federation keeps its federation record and object instance, has no federates, and satisfies the registry invariant |
| `Mom.MomFederation.AddFederate` | codebase/src/java/portico/org/portico/lrc/services/mom/data/MomFederation.java:66-69 | the record is stored under its federate handle, replacing any earlier one; every other handle looks up as before; the registry invariant is kept |
| `Mom.MomFederation.RemoveFederate` | codebase/src/java/portico/org/portico/lrc/services/mom/data/MomFederation.java:71-74 | returns the record stored under the handle, or None; afterwards the handle is absent, nothing else changed, and the registry invariant is kept |
| `Mom.MomFederation.GetFederate` | codebase/src/java/portico/org/portico/lrc/services/mom/data/MomFederation.java:76-79 | returns a record exactly when the handle is present, and then the one stored under it; under the registry invariant that record's federate has the handle looked up |
| `Mom.MomFederation.Clear` | codebase/src/java/portico/org/portico/lrc/services/mom/data/MomFederation.java:81-84 | afterwards there are no federates, every lookup returns None, and the registry invariant holds |
| `Mom.MomFederation.GenerateUpdate` | codebase/src/java/portico/org/portico/lrc/services/mom/data/MomFederation.java:156-219 | the loop's result equals the specified update for every iteration order, and no state changes |
| `Mom.JoinThenResignTwice` | codebase/src/java/portico/org/portico/lrc/services/mom/data/MomFederation.java:66-79 | after an add, a lookup finds the record, the first removal returns it, the second returns None, and other handles are untouched |
| `Mom.RejoinReplaces` | codebase/src/java/portico/org/portico/lrc/services/mom/data/MomFederation.java:66-69 | a second record for the same federate handle replaces the first |
| `Hla1516eTypes.Wrap` | codebase/src/java/portico/org/portico/impl/hla1516e/types/HLA1516eAttributeHandleSet.java:46-47 | a handle wrapping v is present exactly when v is in the input |
| `Hla1516eTypes.AttributeHandleSet.constructor` | codebase/src/java/portico/org/portico/impl/hla1516e/types/HLA1516eAttributeHandleSet.java:38-41 | the no-argument constructor gives an empty set: no handle is contained |
| `Hla1516eTypes.AttributeHandleSet.FromIntegers` | codebase/src/java/portico/org/portico/impl/hla1516e/types/HLA1516eAttributeHandleSet.java:43-48 | after the loop the set holds exactly the wrappers of the input integers: it contains the wrapper of v exactly when v is in the input |
| `Hla1516eTypes.AttributeHandleSet.Contains` | codebase/src/java/portico/org/portico/impl/hla1516e/types/HLA1516eAttributeHandleSet.java:23-25 | membership test (inherited `contains`); the other handle-set contracts are stated through it |
| `Hla1516eTypes.AttributeHandleSet.Add` | codebase/src/java/portico/org/portico/impl/hla1516e/types/HLA1516eAttributeHandleSet.java:23-25 | adds the handle and reports whether it was absent; afterwards it is contained and every other handle's membership is unchanged; adding a present handle leaves the set unchanged |
| `Hla1516eTypes.AttributeHandleSet.Remove` | codebase/src/java/portico/org/portico/impl/hla1516e/types/HLA1516eAttributeHandleSet.java:23-25 | removes the handle and reports whether it was present; afterwards it is not contained and every other handle's membership is unchanged |
| `Hla1516eTypes.AttributeHandleSet.Clone` | codebase/src/java/portico/org/portico/impl/hla1516e/types/HLA1516eAttributeHandleSet.java:53-57 | the clone is a new object that contains exactly the handles the original contains |
| `Hla1516eTypes.CloneIsIndependent` | codebase/src/java/portico/org/portico/impl/hla1516e/types/HLA1516eAttributeHandleSet.java:53-57 | after adding h to the clone and removing g from the original, the clone contains h and every handle the original had besides, and the original lacks g and is otherwise unchanged |

## Left out

- The trace call in `notYetSupported` (MomFederation.java:223) and the logger passed to the constructor. They are diagnostics only and never change a result.
- The Java enum lookup `org.portico.lrc.model.Mom.Federation.forHandle`, `JEncodingHelpers.encodeString`, `HLA1516eUnicodeString.toByteArray` and `PorticoConstants` are not part of this model. They are fields of `Mom.Collaborators`, arbitrary for every property. So no byte layout is stated, and no decode or round-trip law is claimed for either encoding. Nor is it claimed that the legacy and unicode encodings of a text differ.
- Whether `RTI_HANDLE` differs from every real federate handle. That depends on the constant's value, which is not part of this model.
- The `throws JAttributeNotDefined` clause of `generateUpdate`. Nothing in the modelled code raises it.
- The exception's message text, "Unknown Spec Version: ...". The failure is modelled as the outcome `UnknownSpecVersion(version)`.
- Java `null`: a null handle in the set or a null record would throw `NullPointerException`, and so would a null version once the encoder is reached, that is, when some requested handle has a listed property. The model has no null values; `Option` stands only for the null that `get` and `remove` return.
- The rest of the inherited `HashSet` interface of the handle set (iteration, size, bulk operations). Only add, remove and membership are modelled: the constructor loop calls add, and the contracts of the constructors, of add and remove and of the clone are stated through membership.
- `HLA1516eHandle` is not part of this model. Its equality and hashing are assumed to be by wrapped value, which the datatype `Hla1516eTypes.AttributeHandle` gives. The deduplication in `Add` and in `FromIntegers` rests on that assumption.
- Sharing of handle objects: Java's `clone` is shallow and the copy shares them with the original. Handles are immutable values here, so nothing observable is lost.
- Concurrency. The model assumes registry changes and `generateUpdate` calls on one federation never interleave.
- `codebase/src/cpp/hla13/src/common.h`. It holds platform macros and `delete` loops for manual memory management, with no behaviour this core relies on.
