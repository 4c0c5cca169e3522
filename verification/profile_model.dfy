/** The profile service's records (profile-microservice/model). */
module ProfileModel {
  datatype User = User(
    id: string,
    firstName: string,
    lastName: string,
    username: string,
    email: string,
    gender: string,
    age: string,
    city: string,
    privateProfile: bool,
    role: string)

  datatype UserBusiness = UserBusiness(
    id: string,
    username: string,
    website: string,
    email: string,
    company: string,
    role: string,
    privateProfile: bool)

  /** The {Id, Name, Username} projection the other services ask for. */
  datatype Users = Users(id: string, name: string, username: string)

  const ZeroUsers := Users("", "", "")
}
