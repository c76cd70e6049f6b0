/** The three ranks a user can hold (Auth.kt `Roles`). */
module Roles {
  datatype Role = Admin | Trusted | Default
}
