/** The records the store keeps and accepts. */
module Models {

  /** `DateTime.UtcNow` at creation, as a tick count. */
  type Timestamp = int

  /** An immutable stored user; the store keeps it under its own `id`. */
  datatype User = User(id: string, name: string, username: string, email: string, createdAt: Timestamp)

  /** What a caller submits to create a user. */
  datatype UserInput = UserInput(name: string, username: string, email: string)
}
