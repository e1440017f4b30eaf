# LdapTools core, modelled in Dafny

This project models four parts of the LdapTools PHP library and proves
properties of them:

- **The Windows SID converter** (`ConvertWindowsSid`). `toLdap` turns a
  security identifier's string form `S-<revision>-<authority>-<sub1>-…` into
  the escaped hex of its binary packet, one `\xx` group per byte, ready for a
  search filter. `fromLdap` turns the raw packet back into the string. The
  packet layout is that of section 2.4.2.2 of MS-DTYP and the string has the
  shape of section 2.4.2.1: a revision byte, a sub-authority count N, a
  48-bit big-endian identifier authority, and N little-endian 32-bit
  sub-authorities. The model does not impose that section's fixed revision 1
  or its minimum of one sub-authority (see "Left out").
- **The value-to-DN converter** (`ConvertValueToDn`). `toLdap` classifies its
  input as one of:
  - a DN already in the connection's domain, which is passed through without
    a search;
  - a directory object, which gives its own DN;
  - a GUID;
  - a SID;
  - a plain name.

  For the last three it builds one search filter in the string syntax of
  section 3 of RFC 4515 and issues one search that asks only for `dn`.
  A GUID is written in the mixed-endian packet layout of section 2.3.4.2 of
  MS-DTYP. `fromLdap` returns the unescaped value of a DN's leading relative
  name (section 3 of RFC 4514), or the whole DN when `display_dn` is set.
- **The authentication operation handler**
  (`AuthenticationOperationHandler`). It attempts a bind with the
  operation's credentials and reports the result. Afterwards it either
  restores the connection's earlier session or, on request, keeps the new
  credentials. A before-event and an after-event frame the attempt.
- **The LDAP control record** (`LdapControl`). It is an OID, a criticality
  flag and an optional value. It has chained setters and an array form that
  leaves out a null value.

The modules are:

- `Wrappers`: `Option` and `Result`.
- `Seqs`: split and join, with round-trip lemmas.
- `Decimal`: canonical decimal numerals.
- `Bytes`: big- and little-endian integers, and the `\xx` escaped-hex form with its inverse.
- `Sid` and `SidFixtures`: the SID converter and the library's three example identifiers.
- `Guid`: the GUID converter.
- `Dn`: DN lexing, parsing and writing.
- `Filter`: search filters with a matching semantics.
- `ValueToDn` and `ValueToDnFixtures`: the value-to-DN converter and its examples.
- `AuthHandler`: the authentication handler.
- `LdapControl`: the control record.

The directory, the bind outcome and whether a reconnect succeeds are inputs to
the model:

- A connection for `ValueToDn` is a domain name, a base DN and a search
  function. The searches issued are returned with each result.
- In `AuthHandler` the directory's answer to the bind is a `BindOutcome`
  argument, and whether the restoring reconnect succeeds is a boolean
  argument. The calls made on the connection and the events dispatched are
  recorded in the state that `Execute` returns.

The source's exceptions are `Failure` values and the `Raised` execution.

Choices the model makes where the source's examples leave room:

- The bind attempt is `connect(user, password, false, null)`, exactly as
  every authentication example stubs it
  (spec/LdapTools/Operation/Handler/AuthenticationOperationHandlerSpec.php:74).
  The model gives the third and fourth arguments no further meaning.
- Criteria values are flattened into one list under the `&` or `|` of the
  criteria filter, `(&(|(objectClass=bar)(objectClass=foo))(cn=Foo))`, as
  the OR-criteria example expects
  (spec/LdapTools/AttributeConverter/ConvertValueToDnSpec.php:203-208).
- A connection that was not bound before the attempt is closed afterwards and
  not reconnected: that example stubs `close()` and no parameterless
  `connect()`
  (spec/LdapTools/Operation/Handler/AuthenticationOperationHandlerSpec.php:83-91).
- After an accepted switch the new session is kept and nothing is closed.
  The switch example stubs `close()` without requiring it
  (spec/LdapTools/Operation/Handler/AuthenticationOperationHandlerSpec.php:101),
  so whether it is called there is the model's choice.
- A search that finds more than one entry is an error, like one that finds
  none. The examples only show searches that find exactly one entry.

## Model

| member | source | states |
|---|---|---|
| Sid.Encode | spec/LdapTools/AttributeConverter/ConvertWindowsSidSpec.php:18-34 | the packet of a valid identifier is 8 + 4·N bytes long, with the revision in byte 0 and the sub-authority count N in byte 1 |
| Sid.Decode | spec/LdapTools/AttributeConverter/ConvertWindowsSidSpec.php:51-54 | a packet is accepted exactly when it has at least 8 bytes and its length agrees with its count byte |
| Sid.DecodeEncode | spec/LdapTools/AttributeConverter/ConvertWindowsSidSpec.php:51-54 | decoding the packet of a valid identifier gives the identifier back |
| Sid.EncodeDecode | spec/LdapTools/AttributeConverter/ConvertWindowsSidSpec.php:62-66 | every accepted packet is the encoding of what it decodes to |
| Sid.ParseFormat | spec/LdapTools/AttributeConverter/ConvertWindowsSidSpec.php:20-34 | reading the string form of a valid identifier gives the identifier back |
| Sid.FormatParse | spec/LdapTools/AttributeConverter/ConvertWindowsSidSpec.php:20-34 | every accepted string is the canonical string of what it denotes |
| Sid.ToLdap | spec/LdapTools/AttributeConverter/ConvertWindowsSidSpec.php:46-49 | `toLdap` succeeds exactly on well-formed SID strings, and its output has 3 characters per packet byte, 3·(8 + 4·N) in all |
| Sid.FromLdap | spec/LdapTools/AttributeConverter/ConvertWindowsSidSpec.php:51-54 | `fromLdap` succeeds exactly on well-formed packets |
| Sid.RoundTrip | spec/LdapTools/AttributeConverter/ConvertWindowsSidSpec.php:62-66 | the test's round trip: `fromLdap` of the bytes behind `toLdap(s)` is `s` for every accepted `s` |
| Sid.RoundTripBinary | spec/LdapTools/AttributeConverter/ConvertWindowsSidSpec.php:51-54 | `toLdap(fromLdap(b))` is the escaped form of `b` for every well-formed packet `b` |
| Bytes.EscapeGroups | spec/LdapTools/AttributeConverter/ConvertWindowsSidSpec.php:18-27 | each byte becomes a backslash followed by its two lowercase hex digits; the backslashes stand exactly at every third position |
| Bytes.EscapeRoundTrip | spec/LdapTools/AttributeConverter/ConvertWindowsSidSpec.php:53 | removing the backslashes and hex-decoding, as the tests do, gives back the escaped bytes |
| Bytes.LittleEndianRoundTrip | spec/LdapTools/AttributeConverter/ConvertWindowsSidSpec.php:18-20 | a 32-bit sub-authority written least significant byte first reads back unchanged |
| Bytes.BigEndianRoundTrip | spec/LdapTools/AttributeConverter/ConvertWindowsSidSpec.php:18-20 | the 48-bit authority written most significant byte first reads back unchanged |
| Decimal.FormatParse | spec/LdapTools/AttributeConverter/ConvertWindowsSidSpec.php:20 | every canonical numeral is the decimal form of its value |
| Decimal.ParseFormat | spec/LdapTools/AttributeConverter/ConvertWindowsSidSpec.php:20 | reading the decimal form of a number gives the number |
| SidFixtures.DomainAdminsToLdap | spec/LdapTools/AttributeConverter/ConvertWindowsSidSpec.php:46-49 | `S-1-5-21-1004336348-1177238915-682003330-512` becomes `\01\05\00\00\00\00\00\05\15\00\00\00\dc\f4\dc\3b\83\3d\2b\46\82\8b\a6\28\00\02\00\00` |
| SidFixtures.DomainAdminsFromLdap | spec/LdapTools/AttributeConverter/ConvertWindowsSidSpec.php:51-54 | the bytes behind that hex give the string back |
| SidFixtures.BuiltinAdministratorsToLdap | spec/LdapTools/AttributeConverter/ConvertWindowsSidSpec.php:56-60 | `S-1-5-32-544` becomes `\01\02\00\00\00\00\00\05\20\00\00\00\20\02\00\00` |
| SidFixtures.NobodyToLdap | spec/LdapTools/AttributeConverter/ConvertWindowsSidSpec.php:56-60 | `S-1-0-0` becomes `\01\01` followed by ten `\00` groups |
| SidFixtures.BuiltinAdministratorsFromLdap | spec/LdapTools/AttributeConverter/ConvertWindowsSidSpec.php:62-66 | the builtin Administrators bytes give `S-1-5-32-544` back |
| SidFixtures.NobodyFromLdap | spec/LdapTools/AttributeConverter/ConvertWindowsSidSpec.php:62-66 | the nobody bytes give `S-1-0-0` back |
| Guid.Parse | spec/LdapTools/AttributeConverter/ConvertValueToDnSpec.php:77 | a string is read as a GUID exactly when it has the 8-4-4-4-12 hex digit shape, and then gives 16 bytes |
| Guid.ParseFormat | spec/LdapTools/AttributeConverter/ConvertValueToDnSpec.php:77 | the canonical string of 16 bytes reads back as those bytes |
| Guid.ToPacket | spec/LdapTools/AttributeConverter/ConvertValueToDnSpec.php:78 | in the packet the first three fields are byte-reversed and the last eight bytes stay in order |
| Guid.PacketInvolution | spec/LdapTools/AttributeConverter/ConvertValueToDnSpec.php:78 | the byte swap undone is the identity, so the packet determines the GUID |
| Guid.ToLdap | spec/LdapTools/AttributeConverter/ConvertValueToDnSpec.php:75-93 | a GUID-shaped string, and only that, has a 48-character escaped packet |
| Guid.ToLdapRoundTrip | spec/LdapTools/AttributeConverter/ConvertValueToDnSpec.php:77-78 | unescaping the escaped packet and undoing the swap gives the GUID's bytes back |
| Dn.LexRender | spec/LdapTools/AttributeConverter/ConvertValueToDnSpec.php:173-178 | lexing the text of any token sequence without a plain backslash gives the tokens back |
| Dn.ParseFormat | spec/LdapTools/AttributeConverter/ConvertValueToDnSpec.php:173-178 | a DN written from relative names, with special characters in values escaped, parses back to those names |
| Dn.EscapeValueRoundTrip | spec/LdapTools/AttributeConverter/ConvertValueToDnSpec.php:173-178 | `type=` followed by an escaped value parses to exactly that value |
| Dn.ParseNeedsEquals | spec/LdapTools/AttributeConverter/ConvertValueToDnSpec.php:54-70 | text without `=` is never a DN, so a plain name goes to the search |
| ValueToDn.CriteriaTermsAll | spec/LdapTools/AttributeConverter/ConvertValueToDnSpec.php:60-65 | the flattened criteria terms all match exactly when the entry holds every listed value |
| ValueToDn.CriteriaTermsAny | spec/LdapTools/AttributeConverter/ConvertValueToDnSpec.php:199-215 | some criteria term matches exactly when the entry holds some listed value |
| ValueToDn.ResolutionFilterSelects | spec/LdapTools/AttributeConverter/ConvertValueToDnSpec.php:54-116 | the search filter selects exactly the entries that meet the criteria (all, or any with `or_filter`) and match the identity: the binary attribute or `cn` for a GUID or SID, the configured attribute for a name |
| ValueToDn.ResolutionFilterText | spec/LdapTools/AttributeConverter/ConvertValueToDnSpec.php:57-58 | the filter text is `(&`, the criteria filter, the identity term, `)` |
| ValueToDn.IdentityFilterText | spec/LdapTools/AttributeConverter/ConvertValueToDnSpec.php:81-82 | the identity term is an OR of `(objectGuid=hex)` and `(cn=text)` for a GUID, of `(objectSid=hex)` and `(cn=text)` for a SID, and `(attribute=text)` for a name |
| ValueToDn.Classify | spec/LdapTools/AttributeConverter/ConvertValueToDnSpec.php:75-116 | a GUID-shaped text is a GUID; otherwise a well-formed SID string is a SID; anything else is a name; a GUID or SID carries exactly the escaped packet its converter produces, so with Sid.RoundTrip and Guid.ToLdapRoundTrip the hex in the filter decodes back to the text |
| ValueToDn.SingleDn | spec/LdapTools/AttributeConverter/ConvertValueToDnSpec.php:57-69 | a search result gives a DN exactly when it holds one entry; no entry is an error |
| ValueToDn.ToLdap | spec/LdapTools/AttributeConverter/ConvertValueToDnSpec.php:54-171 | missing options fail before anything else; a directory object gives its DN or an error with no search; a text searches at most once, and not at all exactly when it is a DN in the domain, which is returned as given; the one search asks for `dn` under the base DN with the resolution filter, and its single entry is the result |
| ValueToDn.FromLdap | spec/LdapTools/AttributeConverter/ConvertValueToDnSpec.php:189-194 | missing options fail; with `display_dn` the DN is returned whole; otherwise it succeeds exactly when the DN parses |
| Dn.RenderLex | spec/LdapTools/AttributeConverter/ConvertValueToDnSpec.php:173-178 | every text that lexes is the text of its tokens, and those tokens contain no plain backslash, so the relative name `fromLdap` reads is determined by the DN text itself, whether or not the DN is written in canonical form |
| ValueToDn.FromLdapOfFormat | spec/LdapTools/AttributeConverter/ConvertValueToDnSpec.php:173-178 | `fromLdap` of any written DN is the unescaped value of its leading relative name |
| ValueToDnFixtures.NameToDn | spec/LdapTools/AttributeConverter/ConvertValueToDnSpec.php:54-70 | `Foo` issues the one search `(&(&(objectClass=bar))(cn=Foo))` for `dn` and returns `CN=Foo,DC=bar,DC=foo` |
| ValueToDnFixtures.GuidToLdap | spec/LdapTools/AttributeConverter/ConvertValueToDnSpec.php:77-78 | `a1131cd3-902b-44c6-b49a-1f6a567cda25` becomes `\d3\1c\13\a1\2b\90\c6\44\b4\9a\1f\6a\56\7c\da\25` |
| ValueToDnFixtures.GuidToDn | spec/LdapTools/AttributeConverter/ConvertValueToDnSpec.php:75-93 | the GUID issues one search: the criteria `(&(objectClass=bar))` AND-ed with an OR of `(objectGuid=<hex>)` and `(cn=<guid>)`, in the test's exact text; it returns the DN found |
| ValueToDnFixtures.SidToDn | spec/LdapTools/AttributeConverter/ConvertValueToDnSpec.php:98-116 | the Domain Admins SID issues one search: the criteria AND-ed with an OR of `(objectSid=<hex>)` and `(cn=<sid>)`, in the test's exact text; it returns the DN found |
| ValueToDnFixtures.OrFilterToDn | spec/LdapTools/AttributeConverter/ConvertValueToDnSpec.php:199-215 | with `or_filter` and `objectClass: [bar, foo]` the criteria become an OR of `(objectClass=bar)` and `(objectClass=foo)`, AND-ed with `(cn=Foo)`, in the test's exact text |
| ValueToDnFixtures.DnInDomainPassesThrough | spec/LdapTools/AttributeConverter/ConvertValueToDnSpec.php:157-171 | `CN=Foo,DC=bar,DC=foo` under domain `bar.foo` is returned as given, with no search, whatever the directory would answer |
| ValueToDnFixtures.DirectoryObjectToDn | spec/LdapTools/AttributeConverter/ConvertValueToDnSpec.php:121-134 | a directory object with a DN gives that DN |
| ValueToDnFixtures.DirectoryObjectWithoutDn | spec/LdapTools/AttributeConverter/ConvertValueToDnSpec.php:139-152 | a directory object without a DN is an error |
| ValueToDnFixtures.NoOptionsRefused | spec/LdapTools/AttributeConverter/ConvertValueToDnSpec.php:183-187 | an attribute without options is refused |
| ValueToDnFixtures.DnToName | spec/LdapTools/AttributeConverter/ConvertValueToDnSpec.php:44-49 | `cn=Foo,dc=bar,dc=foo` gives `Foo` |
| ValueToDnFixtures.EscapedDnToName | spec/LdapTools/AttributeConverter/ConvertValueToDnSpec.php:173-178 | `cn=Foo\,\=bar,dc=foo,dc=bar` gives `Foo,=bar` |
| ValueToDnFixtures.DisplayDn | spec/LdapTools/AttributeConverter/ConvertValueToDnSpec.php:189-194 | with `display_dn` the DN comes back unchanged |
| AuthHandler.Supports | spec/LdapTools/Operation/Handler/AuthenticationOperationHandlerSpec.php:57-69 | the handler supports exactly the authentication operations |
| AuthHandler.Execute | spec/LdapTools/Operation/Handler/AuthenticationOperationHandlerSpec.php:71-157 | the before-event comes first, and the after-event with the response comes exactly when a response is returned; authenticated exactly when the bind is accepted; a rejection carries the last error and error number; the calls are isBound, `connect(user, pass, false, null)`, the error readers on rejection, then the follow-up; only an accepted switch changes the stored credentials; an exception happens only when an earlier session cannot be restored |
| AuthHandler.NewConnection | spec/LdapTools/Connection/LdapConnectionSpec.php:51-54 | a new connection is not bound |
| AuthHandler.NonSwitchingIsTransparent | spec/LdapTools/Operation/Handler/AuthenticationOperationHandlerSpec.php:71-91 | without a switch, or after a rejection, the connection ends with the same credentials and the same bound state as before |
| AuthHandler.SwitchKeepsNewSession | spec/LdapTools/Operation/Handler/AuthenticationOperationHandlerSpec.php:96-109 | after an accepted switch the connection is bound as the new credentials, which are now the configured ones, and nothing was closed |
| AuthHandler.ExecutePreservesConsistent | spec/LdapTools/Operation/Handler/AuthenticationOperationHandlerSpec.php:111-126 | a connection bound only with its configured credentials stays so, and a rejected identity never stays bound unless it is the configured one |
| AuthHandler.ConfigReadOnlyToSwitch | spec/LdapTools/Operation/Handler/AuthenticationOperationHandlerSpec.php:128-143 | the configuration is read exactly when the bind was accepted and a switch was asked for |
| AuthHandler.CallsMade | spec/LdapTools/Operation/Handler/AuthenticationOperationHandlerSpec.php:71-143 | `isBound` and `connect(user, password, false, null)` come first; the last error and error number are read exactly on a rejection; `close` is called exactly when no accepted switch keeps the new session; the configuration's user name and password are set exactly on an accepted switch |
| AuthHandler.RestoreOnlyWhenBound | spec/LdapTools/Operation/Handler/AuthenticationOperationHandlerSpec.php:83-91 | the parameterless reconnect happens exactly when the connection was bound before and no switch took place |
| AuthHandler.AuthenticateExample | spec/LdapTools/Operation/Handler/AuthenticationOperationHandlerSpec.php:145-157 | `foo`/`bar` on a bound connection: authenticated, calls isBound, the bind, `close`, `connect()`, and the before- and after-events with `AuthenticationResponse(true)` |
| AuthHandler.NotBoundExample | spec/LdapTools/Operation/Handler/AuthenticationOperationHandlerSpec.php:83-91 | on a new connection the calls are isBound, the bind and `close` only |
| AuthHandler.SwitchExample | spec/LdapTools/Operation/Handler/AuthenticationOperationHandlerSpec.php:96-109 | with a switch the configuration is read and set to `foo` and `bar`, and the connection stays bound as them |
| AuthHandler.RejectedExample | spec/LdapTools/Operation/Handler/AuthenticationOperationHandlerSpec.php:111-126 | a rejection with last error `foo` and number 99 gives `AuthenticationResponse(false, "foo", 99)`; with a switch asked for, the configuration is never read |
| AuthHandler.SupportsExample | spec/LdapTools/Operation/Handler/AuthenticationOperationHandlerSpec.php:57-69 | add, delete, rename, batch-modify and query operations are not supported |
| LdapControl.New | spec/LdapTools/Connection/LdapControlSpec.php:42-50 | a control made from an OID alone is not critical and has a null value |
| LdapControl.NewWith | spec/LdapTools/Connection/LdapControlSpec.php:34-40 | the three-argument constructor sets OID, criticality and value |
| LdapControl.SetOid | spec/LdapTools/Connection/LdapControlSpec.php:52-56 | the OID setter changes the OID and nothing else |
| LdapControl.SetCriticality | spec/LdapTools/Connection/LdapControlSpec.php:58-62 | the criticality setter changes the criticality and nothing else |
| LdapControl.SetValue | spec/LdapTools/Connection/LdapControlSpec.php:64-68 | the value setter changes the value and nothing else |
| LdapControl.SettersCommute | spec/LdapTools/Connection/LdapControlSpec.php:70-75 | chained setters of different fields commute, and a chain of all three equals the three-argument constructor |
| LdapControl.LastSetterWins | spec/LdapTools/Connection/LdapControlSpec.php:52-68 | setting a field twice leaves the value of the later call, whatever the earlier one was |
| LdapControl.ToArray | spec/LdapTools/Connection/LdapControlSpec.php:77-91 | the array holds `oid` and `iscritical`, and it has a `value` key exactly when the value is not null |
| LdapControl.FromArrayToArray | spec/LdapTools/Connection/LdapControlSpec.php:77-91 | the array form reads back as the control |
| LdapControl.ToArrayFromArray | spec/LdapTools/Connection/LdapControlSpec.php:77-91 | every array the reader accepts is the array form of what it reads |
| LdapControl.ToArrayInjective | spec/LdapTools/Connection/LdapControlSpec.php:77-91 | two controls have the same array form exactly when they are equal |
| LdapControl.ArrayExample | spec/LdapTools/Connection/LdapControlSpec.php:77-91 | a fresh control's array is `{oid, iscritical: false}`; after setting criticality and the value `false` it is `{oid, iscritical: true, value: false}` |
| LdapControl.SetterExample | spec/LdapTools/Connection/LdapControlSpec.php:52-68 | each setter applied to a fresh control replaces just its own field |

## Left out

- Sid.Valid: bounds the sub-authority count by its byte, 255. It does not impose MS-DTYP's limit of 15 sub-authorities, which the tests never reach.
- Sid.Parse: accepts only decimal numerals without leading zeros. The hexadecimal `0x…` authority form of MS-DTYP section 2.4.2.1 is not modelled.
- Sid.Valid: does not require revision 1 or at least one sub-authority, both of which section 2.4.2.1 of MS-DTYP demands, because no example of the source rejects such an identifier.
- Sid.Parse: accepts `S-1-5` (no sub-authority) and revisions other than 1, such as `S-7-5-1`; through ValueToDn.Classify such a text is searched as a SID rather than as a name.
- Sid.Decode: accepts a packet with any revision byte and a sub-authority count of 0, such as eight bytes starting with 9, 0.
- Dn.Parse: handles backslash-escaped characters only. Hex escapes (`\2C`), quoted values, multi-valued relative names joined with `+` and space trimming are not modelled, because the tests use none of them.
- ValueToDn.ToLdap: values are placed into filters unescaped. Escaping filter metacharacters (section 3 of RFC 4515) is not asserted, because no test shows it.
- ValueToDn.ToLdap: the passthrough check does not consult `display_dn`.
- ValueToDn.ToLdap: the search scope and paging are not modelled. Only the base DN, filter and requested attributes of a search are.
- AuthHandler.Execute: whether `close()` is called after an accepted switch is not settled by the source, which stubs it without requiring it; the model calls no `close` there and keeps the new session.
- ValueToDn.SingleDn: the source shows no search with several results; the model refuses one as ambiguous instead of taking its first entry.
- AuthHandler.Execute: the state between the bind and the follow-up, when the connection is bound as the attempted user, is not exposed.
- AuthHandler.Execute: other exceptions the transport might raise are not modelled. Only a failed bind, which is reported, and a failed restoring reconnect, which is raised, are.
- AuthHandler.Execute: events and connection calls are kept in two separate logs, so the interleaving of the two (the before-event preceding `isBound`, the after-event following the restore or switch) is not stated.
- The event dispatcher's implementation, the network transport and server selection are not part of this model.
- The other operation handlers (add, delete, rename, batch modify, query) are modelled only as far as `Supports` refuses them.
- The `LdapControlType` constants are not part of this model, so the examples take the OID as a parameter.
- `LdapObjectRepository` is not modelled. It depends on schema files, caches and dynamic finder methods.
- `AttributeConverterException` is the `ConvertError` datatype, not a class hierarchy.
