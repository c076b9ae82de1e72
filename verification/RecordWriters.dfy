/** What the record encoders write: named fields in the order of their statements. */
module RecordWriters {
  import opened Schema

  datatype Operation =
    | Hash | SignHash | SignCMS | VerifyCMS | SignXML | VerifyXML | SignWSSE | ValidateCertificate
    | LoadKeyStore | LoadTrustedCertificate | SetProxy | SignZIP | VerifyZIP | ExtractZIPSignerCertificate
    | ExportCertificate | CertificateGetInfo | CertificateGetInfoFields
    | GetCertFromCMS | GetCertFromXML | GetTimeFromSig | GetSigAlgFromXML

  const STRINGS := SList(SText, 4)
  const CERTIFICATE := SOpt(SBytes)
  const TRUSTED_CERTIFICATE :=
    Field(NData, SBytes, Field(NPath, SText, Field(NType, SInt, Field(NFormat, SInt, End))))
  const PROXY :=
    Field(NEnabled, SBool, Field(NAddress, SText, Field(NPort, SText, Field(NUser, SText, Field(NPassword, SText,
    End)))))
  const ENDPOINT_POLICY :=
    Field(NAllowedHosts, STRINGS, Field(NAllowedPorts, STRINGS, Field(NRequireHTTPS, SBool,
    Field(NAllowIPAddresses, SBool, End))))
  const CONFIG_LIMITS :=
    Field(NMaxInputSize, SInt, Field(NMaxOutputBufferSize, SInt, Field(NAtomicZIPOutput, SBool,
    Field(NEndpointPolicy, SOpt(ENDPOINT_POLICY), End))))
  const CONFIG_NETWORK :=
    Field(NOCSPTimeout, SInt, Field(NProxy, SOpt(PROXY), Field(NTrustedCertificates, SList(TRUSTED_CERTIFICATE, 24),
    CONFIG_LIMITS)))
  const CONFIG :=
    Field(NCollectObservations, SBool, Field(NLibraryPath, SText, Field(NTSAURL, SOpt(SText),
    Field(NOCSPURL, SOpt(SText), Field(NCustomOCSP, SBool, CONFIG_NETWORK)))))
  const OBSERVATION_RESULT := Field(NErrorClass, SRaw, Field(NNativeCode, SU64, Field(NExpected, SBool, End)))
  const OBSERVATION :=
    Field(NOperation, SRaw, Field(NQueueWait, SInt, Field(NNativeDuration, SInt, Field(NTotalDuration, SInt,
    OBSERVATION_RESULT))))
  const OBSERVATIONS := SList(OBSERVATION, 41)
  const DIGEST := Field(NAlgorithm, SInt, Field(NData, SBytes, End))
  const CMS := Field(NData, SBytes, End)
  const SIGNED_XML := Field(NXML, SBytes, End)
  const VERIFICATION := Field(NInfo, SText, Field(NData, SBytes, Field(NSignerCert, SBytes, End)))
  const VALIDATION := Field(NInfo, SText, Field(NOCSPResponse, SBytes, End))
  const SIGNED_ZIP := Field(NPath, SText, End)
  const CERTIFICATE_DETAILS :=
    Field(NPolicies, STRINGS, Field(NKeyUsages, STRINGS, Field(NExtKeyUsages, STRINGS, Field(NIIN, SText,
    Field(NBIN, SText, Field(NSubjectType, SText, Field(NRoles, STRINGS, End)))))))
  const CERTIFICATE_SUBJECT :=
    Field(NPublicKey, SText, Field(NOCSPURL, SText, Field(NCRLURL, SText, Field(NDeltaCRLURL, SText,
    Field(NSubjectCountry, SText, Field(NSubjectSerialNumber, SText, Field(NSubjectOrganization, SText,
    Field(NSubjectOrganizationalUnit, SText, CERTIFICATE_DETAILS))))))))
  const CERTIFICATE_USAGE :=
    Field(NIssuer, SText, Field(NPolicy, SText, Field(NKeyUsage, SText, Field(NExtKeyUsage, SText,
    Field(NAuthKeyID, SText, Field(NSubjKeyID, SText, Field(NAlgorithmSignCert, SText, CERTIFICATE_SUBJECT)))))))
  const CERTIFICATE_INFO :=
    Field(NSubject, SText, Field(NSerialNumber, SText, Field(NValidFrom, STime, Field(NValidUntil, STime,
    CERTIFICATE_USAGE))))

  function RequestLayout(op: Operation): Schema {
    match op
    case Hash => Field(NAlgorithm, SInt, Field(NData, SSource, End))
    case SignHash =>
      Field(NAlias, SText, Field(NDigest, SBytes, Field(NDigestAlgorithm, SInt, Field(NTimestamp, SBool,
      Field(NIncludeCertificate, SBool, Field(NOutputFormat, SInt, Field(NCertificateTimeCheck, SInt, End)))))))
    case SignCMS =>
      Field(NAlias, SText, Field(NData, SSource, Field(NDetached, SBool, Field(NTimestamp, SBool,
      Field(NIncludeCertificate, SBool, Field(NOutputFormat, SInt, Field(NCertificateTimeCheck, SInt, End)))))))
    case VerifyCMS =>
      Field(NAlias, SText, Field(NSignature, SSource, Field(NData, SSource, Field(NDetached, SBool,
      Field(NEncoding, SInt, Field(NSignerID, SInt, Field(NCertificateTimeCheck, SInt, End)))))))
    case SignXML =>
      Field(NAlias, SText, Field(NXML, SSource, Field(NSignNodeID, SText, Field(NParentSignNode, SText,
      Field(NParentNamespace, SText, Field(NCanonicalization, SInt, Field(NCertificateTimeCheck, SInt, End)))))))
    case VerifyXML =>
      Field(NAlias, SText, Field(NXML, SSource, Field(NExpectedBodyID, SText, Field(NCanonicalization, SInt,
      Field(NCertificateTimeCheck, SInt, End)))))
    case SignWSSE =>
      Field(NAlias, SText, Field(NXML, SSource, Field(NBodyID, SText, Field(NWrapSOAP, SBool,
      Field(NCanonicalization, SInt, Field(NCertificateTimeCheck, SInt, End))))))
    case ValidateCertificate =>
      Field(NCertificate, SSource, Field(NIssuer, SSource, Field(NMode, SInt, Field(NRevocationSource, SText,
      Field(NCheckTime, STime, Field(NReturnOCSPResponse, SBool, Field(NCertificateTimeCheck, SInt, End)))))))
    case LoadKeyStore => Field(NType, SInt, Field(NPath, SText, Field(NPassword, SText, Field(NAlias, SText, End))))
    case LoadTrustedCertificate => TRUSTED_CERTIFICATE
    case SetProxy => PROXY
    case SignZIP =>
      Field(NAlias, SText, Field(NInputPath, SText, Field(NOutputPath, SText, Field(NCertificateTimeCheck, SInt,
      End))))
    case VerifyZIP => Field(NPath, SText, Field(NCertificateTimeCheck, SInt, End))
    case ExtractZIPSignerCertificate =>
      Field(NPath, SText, Field(NSignerID, SInt, Field(NCertificateTimeCheck, SInt, End)))
    case ExportCertificate => End
    case CertificateGetInfo => CERTIFICATE
    case CertificateGetInfoFields => Field(NCertificate, CERTIFICATE, Field(NFields, SU64, End))
    case GetCertFromCMS => SSource
    case GetCertFromXML => SSource
    case GetTimeFromSig => SSource
    case GetSigAlgFromXML => SSource
  }

  function ResultLayout(op: Operation): Schema {
    match op
    case Hash => SOpt(DIGEST)
    case SignHash => SOpt(CMS)
    case SignCMS => SOpt(CMS)
    case VerifyCMS => SOpt(VERIFICATION)
    case SignXML => SOpt(SIGNED_XML)
    case VerifyXML => SOpt(VERIFICATION)
    case SignWSSE => SOpt(SIGNED_XML)
    case ValidateCertificate => SOpt(VALIDATION)
    case LoadKeyStore => End
    case LoadTrustedCertificate => End
    case SetProxy => End
    case SignZIP => SOpt(SIGNED_ZIP)
    case VerifyZIP => SOpt(VERIFICATION)
    case ExtractZIPSignerCertificate => SBytes
    case ExportCertificate => SBytes
    case CertificateGetInfo => SOpt(CERTIFICATE_INFO)
    case CertificateGetInfoFields => SOpt(CERTIFICATE_INFO)
    case GetCertFromCMS => SList(SBytes, 4)
    case GetCertFromXML => SList(SBytes, 4)
    case GetTimeFromSig => STime
    case GetSigAlgFromXML => SText
  }
}
