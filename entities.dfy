/** The rows of the registry's tables: modules (data/module.kt) and releases
    (the release columns the controllers read and write). */
module Entities {
  import opened Wrappers

  /** A release id is a random UUID; only its identity matters here. */
  type Uuid = nat

  /** The id of a chat message (the pending-verification notice). */
  type MessageId = nat

  datatype Release = Release(
    id: Uuid,
    moduleId: int,
    releaseVersion: string,
    modVersion: string,
    changelog: string,
    downloads: int,
    verified: bool,
    verificationToken: Option<string>,
    verificationMessage: Option<MessageId>,
    createdAt: int,
    updatedAt: int)

  datatype Module = Module(
    id: int,
    ownerId: int,
    name: string,
    description: string,
    image: Option<string>,
    downloads: int,
    tags: string,
    hidden: bool,
    createdAt: int,
    updatedAt: int)
}
