/** `aws_config`: the settings handed to the EC2 and ELB clients, built
    from the global options. An option is set when it is not nil (Ruby
    truthiness: an empty string counts as set). */
module Config {
  import opened Fleet

  datatype GlobalOptions = GlobalOptions(
    accessKeyId: Option<string>,
    secretAccessKey: Option<string>,
    region: Option<string>,
    profile: Option<string>,
    color: bool)

  datatype ConfigKey = CredentialProvider | AccessKeyId | SecretAccessKey | Region

  /** A shared-credentials-file provider for a profile, or a plain string. */
  datatype ConfigValue = SharedCredentials(profileName: string) | Text(s: string)

  method AwsConfig(opts: GlobalOptions) returns (hash: map<ConfigKey, ConfigValue>)
    // a profile wins: its provider is used and explicit keys are ignored
    ensures opts.profile.Some? ==>
              CredentialProvider in hash && hash[CredentialProvider] == SharedCredentials(opts.profile.value) &&
              AccessKeyId !in hash && SecretAccessKey !in hash
    // without a profile, explicit keys are passed on only as a pair
    ensures opts.profile.None? ==> CredentialProvider !in hash
    ensures opts.profile.None? ==>
              (AccessKeyId in hash <==> opts.accessKeyId.Some? && opts.secretAccessKey.Some?)
    ensures (SecretAccessKey in hash <==> AccessKeyId in hash)
    ensures AccessKeyId in hash ==>
              hash[AccessKeyId] == Text(opts.accessKeyId.value) && hash[SecretAccessKey] == Text(opts.secretAccessKey.value)
    // the region is present exactly when it is set
    ensures Region in hash <==> opts.region.Some?
    ensures Region in hash ==> hash[Region] == Text(opts.region.value)
  {
    hash := map[];
    if opts.profile.Some? {
      hash := hash[CredentialProvider := SharedCredentials(opts.profile.value)];
    } else if opts.accessKeyId.Some? && opts.secretAccessKey.Some? {
      hash := hash[AccessKeyId := Text(opts.accessKeyId.value)][SecretAccessKey := Text(opts.secretAccessKey.value)];
    }
    if opts.region.Some? {
      hash := hash[Region := Text(opts.region.value)];
    }
  }
}
