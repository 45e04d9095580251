/** The length limits the schemas read from the configuration module, which is not part of this
    model: they are parameters. */
module Config {

  datatype Limits = Limits(
    minSlugLength: nat,
    maxSlugLength: nat,
    maxUsernameLength: nat,
    maxEmailLength: nat)
}
